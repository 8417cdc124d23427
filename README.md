# Kapowarr core, modelled in Dafny

Kapowarr is a comic-book library manager. It searches for volumes and
issues, downloads them through direct links, MEGA, torrent, usenet and
DC++ clients, and renames the downloaded files into the volume folders.
This project models the decision logic at the heart of that system and
proves properties of the model.

- **Download-client adapters**:
  - AirDC++ over DC++ (`DcppAirDcpp`);
  - Transmission (`Transmission`);
  - qBittorrent (`QBittorrent`, with the magnet-link rewriting in `Magnet`);
  - SABnzbd (`Sabnzbd`);
  - the direct AirDC++ client (`DirectAirDcpp`).

  Each adapter maps its backend's status vocabulary onto the shared
  `DownloadState`. Each classifies login and handshake replies into fixed
  reasons or errors, and keeps a per-download stall tracker. HTTP replies
  and the clock are inputs. The adapters are classes whose fields are the
  session and the tracker maps.
- **MEGA helper library** (`Mega`):
  - big-endian word packing;
  - base64url;
  - the chunk schedule;
  - the extended Euclidean algorithm and the modular inverse;
  - the reply-code table;
  - key XOR and the MAC check.
- **Download queue** (`DownloadQueue`, and the older `LegacyDownload`):
  - which entry runs next;
  - the duplicate guard;
  - the covered-issues text;
  - lookup and removal;
  - the outcome of a finished download;
  - the torrent polling step;
  - left-over file selection;
  - grouping of download links into non-conflicting paths, their order and
    the choice of the first path that works.
- **Search** (`FeatureSearch`, `LegacySearch`, `Ranking`, `Queries`, `Files`):
  - title normalisation;
  - ordered match checks;
  - rating vectors;
  - stable sorting;
  - de-duplication by link;
  - the choice of non-overlapping volume parts;
  - issue-number parsing.
- **Naming** (`Naming`):
  - the naming keys;
  - format validation;
  - collision indexing of planned renames;
  - rename suggestions.
- **Small registries**:
  - the background-task queue and its interval scheduler (`Tasks`);
  - settings validation (`Settings`);
  - the blocklist and root-folder tables (`Blocklist`, `RootFolders`, `Tables`);
  - list batching and the Python version check (`Helpers`).

Python's semantics are written out where they matter:
- truthiness;
- `for`/`else`;
- stable `sorted`;
- dictionaries that keep the last value at the first key's position;
- `round` with half-to-even on exact values;
- the exceptions (`KeyError`, `IndexError`, `TypeError`, `ValueError`,
  `AttributeError`) that the code raises on odd input, as `Err` results.

Shared pieces:
- `Common` holds the download states, `Option`, `Result` and the error names.
- `Strings` holds the string operations (split, join, replace, `zfill`,
  strip, `basename`, `splitext`) with their lemmas.
- `Numbers` holds rounding.

## Model

| member | source | states |
|---|---|---|
| Numbers.Round | backend/tasks.py:226 | rounding to an integer lands within one half of the value |
| Numbers.RoundMonotone | backend/tasks.py:226 | rounding never reverses the order of two values |
| Numbers.RoundOfInt | backend/tasks.py:226 | an integer rounds to itself |
| Numbers.Round2Percent | backend/implementations/usenet_clients/sabnzbd.py:186 | a percentage rounded to two decimals stays between 0 and 100 |
| Numbers.Round2NonNegative | backend/implementations/usenet_clients/sabnzbd.py:186 | rounding to two decimals keeps a non-negative value non-negative |
| Numbers.PercentBounds | backend/implementations/usenet_clients/sabnzbd.py:186 | a part of a positive whole is between 0 and 100 percent of it |
| Tables.NextRowId | backend/blocklist.py:83-86 | a new row id is positive, larger than every id in the table, and 1 exactly on an empty table |
| Tables.Descending | backend/blocklist.py:25 | every id once, in descending order |
| Tables.Ascending | backend/root_folders.py:20-22 | every id once, in ascending order |
| Helpers.Batched | backend/helpers.py:27-38 | a step of 0 is a ValueError, a negative step yields no batch, an empty list no batch |
| Helpers.BatchesFlatten | backend/helpers.py:37-38 | the batches joined back together are the list itself |
| Helpers.BatchesCount | backend/helpers.py:37-38 | there are ceil(len/n) batches |
| Helpers.BatchesSizes | backend/helpers.py:37-38 | every batch but the last holds n elements, the last between 1 and n |
| Helpers.SeedingHandlingMembership | backend/helpers.py:52-62 | a value is in SeedingHandling exactly when it is 'complete' or 'copy', and the two values differ |
| Helpers.CheckPythonVersionAsWritten | backend/helpers.py:13-25 | the check as written returns True exactly for Python 3.8 and later in major version 3, and otherwise fails with TypeError |
| Helpers.OldPythonRaises | backend/helpers.py:19-22 | on Python 3.7.17 the check as written raises TypeError instead of returning False |
| Helpers.CheckPythonVersion | backend/helpers.py:13-25 | the check answers True exactly when the major version is 3 and the minor version is at least 8 |
| Helpers.CheckPythonVersionAgrees | backend/helpers.py:13-25 | the corrected check agrees with the as-written one wherever that one returns, and answers False wherever it raises |
| Files.LetterCode | backend/files.py:81-84 | a letter becomes three digits whose value is int((index+1)/0.26) for its place in the alphabet |
| Files.ConvertEntry | backend/files.py:69-84 | the loop over the characters of an entry builds Converted(entry), which is always decimal text: digits with at most one '.' |
| Files.ConvertedIsDecimal | backend/files.py:69-84 | a converted entry holds only digits and at most one '.', whatever the entry |
| Files.ConvertedKeepsLeadingDigits | backend/files.py:70-76 | the leading digits of an entry are kept as they are, and the first non-digit after them becomes the one '.' |
| Files.ConvertedOfDigits | backend/files.py:70-72 | an entry of digits only is converted to itself |
| Files.ConvertedReads | backend/files.py:86-89 | a converted entry reads as a float exactly when it holds at least one digit |
| Files.Entries | backend/files.py:53-56 | the text is split on '-' only when it holds a '-' and does not start with one; there is always at least one entry |
| Files.Shaped | backend/files.py:91-97 | no number gives None, one number gives that float, two or more give the tuple of all of them in order |
| Files.ProcessIssueNumber | backend/files.py:51-99 | the loop over the entries returns what IssueNumberOf specifies: the entries' numbers shaped as None, a float or a tuple |
| Files.CleanedDigits | backend/files.py:60 | replacing ',' by '.' and stripping trailing '.' leaves a digit string unchanged |
| Files.FloatOfDigits | backend/files.py:63 | float() of a digit string is the number those digits write |
| Files.PlainIssueNumber | backend/files.py:51-99 | a plain digit string is processed into the single float it writes |
| Files.IssueRange | backend/files.py:51-99 | 'a-b' with a and b digit strings is processed into the tuple (a, b) |
| Files.NormalisedVolume | backend/files.py:230-235 | a volume text of digits becomes its integer, one made only of 'i'/'I' becomes the count of its letters, anything else is kept |
| Files.FileDataOf | backend/files.py:223-238 | a year that is not a number fails; with neither issue nor special version the result is a 'tpb' whose series defaults to the cleaned file name; the volume is normalised and the issue number processed |
| Ranking.LexLeTotal | backend/search.py:192 | Python's comparison of rating lists orders any two lists one way or the other |
| Ranking.LexLeTrans | backend/search.py:192 | the comparison of rating lists is transitive |
| Ranking.LexLeAntisymmetric | backend/search.py:192 | two rating lists compare both ways exactly when they are equal |
| Ranking.SortBy | backend/search.py:192 | the sort by a key keeps the length and leaves the list ordered by the key |
| Ranking.SortByStable | backend/search.py:192 | the sort is stable: the elements of each key come out in the order they went in |
| Ranking.SortByStablySorts | backend/search.py:192 | the sort gives the same elements in key order, with equal keys in input order |
| Ranking.SortByPermutes | backend/search.py:192 | the sort keeps every result, each as often as before |
| Ranking.DictPutShape | backend/search.py:185 | storing a result in the link-keyed dict keeps the order of the links already there, replaces the entry of an existing link in place, and appends a new link at the end |
| Ranking.DedupSpec | backend/search.py:183-185 | after the dict round trip no link occurs twice, exactly the links of the input remain, and each remaining result is the last one the input held for its link |
| Ranking.WordsNotIn | backend/search.py:69-70 | the words of the result title kept are exactly those that are not words of the searched title |
| Ranking.GatherResults | backend/search.py:175-181 | the loop over the queries concatenates the results of every query in query order |
| Ranking.GatheredHolds | backend/search.py:175-181 | a result is gathered exactly when the search for one of the queries returned it |
| Ranking.Matches | backend/search.py:260-263 | the filtered results are exactly the results whose verdict is a match, in order |
| Queries.StripYear | backend/search.py:171-172 | removing '({year})' never lengthens a query format |
| Queries.StripYearRemovesYear | backend/search.py:171-172 | a format whose year field stands in brackets has no year field left after the removal |
| Queries.StripYearWithoutYear | backend/search.py:171-172 | a format without a year field is left unchanged |
| Queries.RenderIgnoresYear | backend/search.py:178 | a format without a year field renders the same whatever the year |
| Queries.RenderStartsWithTitle | backend/search.py:178 | a format starting with the title field renders to a query that starts with the title |
| Queries.FillFormats | backend/search.py:176-179 | one query is made per format |
| Queries.QueriesShape | backend/search.py:166-179 | every query starts with the title; with a year each format is rendered as it is, without one each format is rendered with its year removed |
| LegacySearch.RemoveTokens | backend/search.py:22-26 | no '-', '+', ',', '!', ':' and no whole word 'the' is left in the lowered title |
| LegacySearch.Collapse | backend/search.py:23-27 | collapsing whitespace keeps an empty title empty and a leading space leading |
| LegacySearch.CollapseShape | backend/search.py:23-27 | every run of whitespace becomes one space, and every other character comes from the title |
| LegacySearch.CleanTitleShape | backend/search.py:25-31 | a cleaned title holds none of the removed characters, has no whitespace at either end and no two whitespace characters in a row |
| LegacySearch.TitlesMatchEquivalence | backend/search.py:25-31 | title matching is reflexive, symmetric and transitive |
| LegacySearch.LeadingTheIgnored | backend/search.py:22-31 | a title with a leading 'The ' matches the title without it |
| LegacySearch.CheckMatch | backend/search.py:33-59 | a blocklisted link and a title that differs are refused with their reasons in that order; a result matches exactly when it is not blocklisted, the titles match, the issue number is equal when one is searched for, and the year is within one of the searched year when both are known |
| LegacySearch.RangesNeverMatch | backend/search.py:40-47 | when an issue is searched for, a result with an issue range never matches, and nothing matches a searched range |
| LegacySearch.Rating | backend/search.py:61-108 | the rating starts with 0 exactly for a match, then the number of title words not in the searched title, then one year component when a year is searched and the issue-fit components |
| LegacySearch.MatchesFirst | backend/search.py:65 | a match is sorted strictly before a result that does not match |
| LegacySearch.SameYearFirst | backend/search.py:73-77 | with equal match and word counts, a result of the searched year sorts strictly before one of another year |
| LegacySearch.QueryTitle | backend/search.py:164 | the query title is the title with every '/' and ':' removed |
| LegacySearch.LegacyFormats | backend/search.py:166-169 | three formats, each starting with the title and holding the year in brackets; the issue field occurs exactly in the issue formats |
| LegacySearch.Checks | backend/search.py:188-189 | each merged result keeps its data and gets its verdict |
| LegacySearch.CheckAll | backend/search.py:188-189 | the loop over the merged results gives each its verdict |
| LegacySearch.ManualSearch | backend/search.py:155-195 | the results are exactly the verdicts of the merged results of all queries, one per link, sorted by rating, with results of equal rating in merged order |
| LegacySearch.AutoSearchAsWritten | backend/search.py:197-312 | nothing for an unmonitored volume, a volume with no open issue, or an unmonitored issue or one with a file; the first match for an issue; for a volume the part selection as written |
| LegacySearch.SelectPartsAsWritten | backend/search.py:271-309 | the loop over the matches computes the part selection as written, including the TypeError of a range compared with a single-issue part |
| LegacySearch.ContainingRangeSelectedAsWritten | backend/search.py:291-299 | with the range 2-3 selected, the range 1-4 is selected too although it covers the same issues |
| LegacySearch.RangeAfterSingleRaises | backend/search.py:291-296 | with issue 1 selected, the range 2-3 makes the selection raise TypeError |
| LegacySearch.ClosedRangeSelectedAsWritten | backend/search.py:278-285 | a range covering no open issue is still selected, because the filter object is always truthy |
| LegacySearch.SelectParts | backend/search.py:271-309 | the first special version alone; otherwise matches that each cover an open issue, no two overlapping, and every left-out match that covers an open issue overlaps a selected part |
| LegacySearch.AutoSearch | backend/search.py:197-312 | the early answers of auto_search, the first match for an issue, and for a volume a selection of matches that never covers an issue twice |
| LegacySearch.KeepsDisjoint | backend/search.py:308-309 | adding a part that overlaps no selected part keeps the parts pairwise disjoint |
| LegacySearch.KeepsConflicts | backend/search.py:308-309 | an issue number that overlapped a part still overlaps one after a part is added |
| FeatureSearch.Value | backend/base/definitions.py:166-180 | every special version but the normal one has a value |
| FeatureSearch.ValueInjective | backend/base/definitions.py:166-180 | two special versions have the same value exactly when they are the same version |
| FeatureSearch.VolumeYearScore | backend/features/search.py:65-90 | the volume and year score lies between 0 and 3 |
| FeatureSearch.VolumeYearScoreOrder | backend/features/search.py:65-90 | the score is 0 exactly for the right volume number and the issue's year; with the volume number equally right, the issue's year beats any other year |
| FeatureSearch.IssueFitFails | backend/features/search.py:118-124 | rating a range without a target issue raises ZeroDivisionError exactly when its last number is one below its first |
| FeatureSearch.IssueFitOrder | backend/features/search.py:93-117 | with a target issue the fit is one number from 0 to 3; it is 0 exactly for that issue or the range of only that issue, and below 1 for a range containing it |
| FeatureSearch.NoTargetRangesFirst | backend/features/search.py:118-127 | without a target a range rates between 0 and 1, a single issue rates 1, and a wider range rates below a narrower one |
| FeatureSearch.RatingShape | backend/features/search.py:24-129 | the rating raises exactly when the issue fit does, and otherwise starts with 0 exactly for a match, then the missing words, then the volume and year score, then the issue fit |
| FeatureSearch.MatchesFirst | backend/features/search.py:53-54 | a match is sorted strictly before a result that does not match |
| FeatureSearch.SearchMultipleQueries | backend/features/search.py:174-198 | the results of all queries merged to one per link: no link twice, exactly the links found, each the last result found for its link |
| FeatureSearch.TpbFormats | backend/features/search.py:245-252 | five formats, each starting with the title, none with an issue field, the last the bare title |
| FeatureSearch.VolumeAsIssueFormats | backend/features/search.py:253-257 | two formats, each starting with the title, none with an issue field, the last the bare title |
| FeatureSearch.VolumeFormats | backend/features/search.py:258-264 | four formats, each starting with the title, none with an issue field, the last the bare title |
| FeatureSearch.IssueFormats | backend/features/search.py:265-271 | four formats, each starting with the title, the first three with the issue field, the last the bare title |
| FeatureSearch.FeatureFormats | backend/features/search.py:245-271 | the formats chosen by special version and issue: their number, the bare title last, and an issue field only in an issue search of a volume that is neither TPB nor volume-as-issue |
| FeatureSearch.SearchTitleShape | backend/features/search.py:243 | the search title holds no ':' and a title without ':' is kept as it is |
| FeatureSearch.TitleQueriesShape | backend/features/search.py:243-285 | there is at least one query, every query starts with the search title and the last one is the search title itself |
| FeatureSearch.FirstFound | backend/features/search.py:240-287 | the title searched is the first title, then the alternative title, that is present and returns results; none when neither does |
| FeatureSearch.Judged | backend/features/search.py:295-304 | each result keeps its data and gets the verdict of the match check |
| FeatureSearch.RankResults | backend/features/search.py:307-312 | a ZeroDivisionError exactly when some result's rating raises, otherwise the same results sorted by rating, with results of equal rating in the order they were found |
| FeatureSearch.ManualSearch | backend/features/search.py:201-317 | nothing when no title returns results; otherwise the judged results of the first title that returns any, stably sorted by rating, or the error of the sort |
| FeatureSearch.SearchTitles | backend/features/search.py:240-287 | the loop over the title and the alternative title settles on the first title whose queries return anything, with the merged results of its queries, which are not empty |
| FeatureSearch.CandidatesWellShaped | backend/features/search.py:279-285 | every result of the merged search holds an issue number as process_issue_number gives it |
| FeatureSearch.AnyOverlap | backend/features/search.py:456-461 | the loop over the chosen parts finds an overlap exactly when some part overlaps the result's issue number |
| FeatureSearch.SelectParts | backend/features/search.py:397-463 | the chosen parts are eligible matches with the issue number they go by, no two overlapping, and every eligible match is chosen or overlaps a chosen part |
| FeatureSearch.SelectOne | backend/features/search.py:398-463 | one result joins the parts with its issue key exactly when it is eligible and overlaps no part chosen before it; otherwise the parts stay as they are |
| FeatureSearch.SelectionStep | backend/features/search.py:398-463 | one more match, chosen when eligible and overlapping no part, keeps the selection property |
| FeatureSearch.AutoSearch | backend/features/search.py:320-466 | nothing for an unmonitored volume, a volume with no open issue, or an unmonitored issue or one with files; the first match for an issue or a special-version volume; otherwise the volume-part selection |
| LegacyDownload.SourceFor | backend/download.py:212-214 | the key of the first source tuple holding the button text, and none exactly when no tuple holds it |
| LegacyDownload.CheckDownloadLink | backend/download.py:203-216 | a source is returned only for a present, non-empty link that is not blocklisted, and it is one of the preferred sources |
| LegacyDownload.CheckDownloadLinkTable | backend/download.py:212-216 | for a usable link, each button text maps to its source: 'mega'/'mega link' to mega, the mediafire and zippyshare pairs to theirs, 'direct'/'download now'/'main server'/'mirror download' to direct, and any other text to none |
| LegacyDownload.PurifyLink | backend/download.py:218-283 | a magnet link and a link that is not http are rejected with LinkBroken reason 2; only an http link is handed to the network probe |
| LegacyDownload.PurifyLinkOffline | backend/download.py:220-283 | a link that is not http is rejected whatever the network would answer |
| LegacyDownload.OrderSources | backend/download.py:342 | the group's sources are re-keyed with every source kept, each with its links, in the order of source_preference_order |
| LegacyDownload.InOrderFollows | backend/download.py:40-44 | listing the sources by a list of distinct names puts them in strictly increasing position in that list |
| LegacyDownload.ClashAsWrittenMisses | backend/download.py:347-368 | the conflict test as written finds every overlap of issue numbers except a new range that strictly contains the entry's range, and finds no overlap that is not one for ranges written low to high |
| LegacyDownload.FirstTaking | backend/download.py:345-370 | the first path that no entry blocks, or none when every path has a blocking entry |
| LegacyDownload.AppendOk | backend/download.py:367-368 | a path that takes a group stays well formed with the group at its end |
| LegacyDownload.AddGroupOk | backend/download.py:333-370 | adding a group of the page keeps every path well formed under the corrected conflict test |
| LegacyDownload.BuildPathsOk | backend/download.py:333-370 | under the corrected test every path is non-empty, a special version is alone in its path, and no two groups of a path cover a common issue |
| LegacyDownload.BuildPathsKeepsGroups | backend/download.py:333-370 | every wanted group of the page lands in exactly one path, and nothing else is in the paths |
| LegacyDownload.ContainingGroupJoinsAsWritten | backend/download.py:363-365 | with a path holding the range 2-3, the range 1-4 joins that path as written, making it cover issues 2 and 3 twice; the corrected test starts a new path |
| LegacyDownload.FindPath | backend/download.py:347-368 | the loops over the paths and their entries find the first path that takes the group |
| LegacyDownload.ProcessExtracted | backend/download.py:326-375 | the loop over the page's groups builds the paths with the corrected conflict test and sorts them by the path key |
| LegacyDownload.AddOne | backend/download.py:334-368 | one link group changes the paths as one step of the path building: an unwanted group changes nothing, a special version gets a path of its own, any other joins the first path that takes it or starts a new one |
| LegacyDownload.SortedPathsOk | backend/download.py:372 | sorting keeps the paths well formed |
| LegacyDownload.SortedPathsOrder | backend/download.py:321-372 | in the sorted paths a special-version path never follows another path, and among the others a longer path comes first |
| LegacyDownload.ProcessedPaths | backend/download.py:326-375 | the returned paths hold every wanted group once, never cover an issue twice within a path, keep special versions alone, and come special first, then longest first |
| LegacyDownload.FlattenPermutes | backend/download.py:372 | reordering the paths keeps the multiset of their groups |
| LegacyDownload.FirstWorking | backend/download.py:404-416 | the link chosen is one of the group's links that can be set up, and every link passed over is broken and blocklisted with its reason |
| LegacyDownload.FirstWorkingSplit | backend/download.py:404-416 | trying broken links first adds only their blocklist entries |
| LegacyDownload.TrySource | backend/download.py:405-416 | the loop over the links of one source returns its first working link and the links blocklisted before it |
| LegacyDownload.TryGroup | backend/download.py:404-420 | the loop over the sources of a group returns the first working link of the group and the links blocklisted before it |
| LegacyDownload.RunPath | backend/download.py:384-426 | a path's downloads are links that can be set up, at most one per group, and every blocklisted link is broken with its reason |
| LegacyDownload.AbandonedIff | backend/download.py:418-425 | a path is abandoned exactly when one of its special-version groups has no working link |
| LegacyDownload.RunPathLoop | backend/download.py:384-426 | the loop over the groups of a path computes RunPath |
| LegacyDownload.TestPathsSpec | backend/download.py:377-429 | the downloads returned are links that can be set up, and every blocklisted link is broken with its reason |
| LegacyDownload.TestPaths | backend/download.py:377-429 | the loop over the paths computes TestPathsSpec |
| LegacyDownload.TestPathsFirstViable | backend/download.py:383-429 | the downloads are those of the first path that is not abandoned, and none when every path is abandoned |
| LegacyDownload.FirstWithId | backend/download.py:634-635 | the position of the first queued download with the id, or none when no queued download has it |
| LegacyDownload.AfterRemoveSpec | backend/download.py:634-640 | the entries of other downloads keep their order; a downloading entry stays, marked canceled, and any other entry is taken out |
| LegacyDownload.DownloadHandler.Remove | backend/download.py:627-644 | DownloadNotFound with nothing changed when no row has the id; otherwise the row is deleted and the first queued entry with the id is stopped or popped |
| DownloadQueue.FindId | backend/features/download_queue.py:554-555 | the position of the first entry with the id, and none exactly when no entry has it |
| DownloadQueue.FindIdAt | backend/features/download_queue.py:554-555 | the entry at a position, with no earlier entry of its id, is the one found |
| DownloadQueue.GetOne | backend/features/download_queue.py:523-538 | an entry of the queue with the id exactly when one exists, else DownloadNotFound |
| DownloadQueue.GetOneFindsEach | backend/features/download_queue.py:535-537 | with distinct ids, every entry of the queue is returned for its own id |
| DownloadQueue.RemoveId | backend/features/download_queue.py:149-172 | taking an entry out of the queue keeps exactly the entries with other ids, and keeps ids distinct |
| DownloadQueue.EncodeCovered | backend/features/download_queue.py:243-252 | no text exactly when no issues are covered, and a comma in the text of a range |
| DownloadQueue.DecodeCovered | backend/features/download_queue.py:318-329 | a missing text reads as no issues, a text with a comma as a range, and a number that does not parse raises ValueError |
| DownloadQueue.CoveredRoundTrip | backend/features/download_queue.py:243-329 | reading back the stored text of the covered issues gives the same covered issues |
| DownloadQueue.FirstDirect | backend/features/download_queue.py:196-205 | the position of the first entry that is not an external download, and none when every entry is external |
| DownloadQueue.NextRunningChoice | backend/features/download_queue.py:186-213 | a running download is kept; otherwise the first direct entry starts, none when all are external; a second call changes nothing |
| DownloadQueue.LinkInQueue | backend/features/download_queue.py:403-408 | true exactly when some entry has the link as its web link or its download link |
| DownloadQueue.BlocklistFor | backend/features/download_queue.py:451-476 | a broken page is blocklisted as LinkBroken, a page without working links as NoWorkingLinks, and nothing else is blocklisted |
| DownloadQueue.LastRowId | backend/features/download_queue.py:255-281 | the largest id of the rows present (the queue's entries), 0 for an empty table: no row has a larger id, and a non-empty table has a row with it |
| DownloadQueue.Prepared | backend/features/download_queue.py:217-293 | the downloads keep their links, are queued, and get consecutive ids after the largest id present, as the insert's lastrowid gives them |
| DownloadQueue.AddedPageIsGuarded | backend/features/download_queue.py:403-491 | once the downloads of a page are added, the page's link is in the queue, so adding it again adds nothing |
| DownloadQueue.AfterRemove | backend/features/download_queue.py:554-567 | a queued entry that is not a torrent leaves the queue with the rest in order; any other entry stays in place, canceled |
| DownloadQueue.AfterRemoveIds | backend/features/download_queue.py:554-567 | removing keeps the ids distinct and hands out no new id |
| DownloadQueue.CancelAllLeaves | backend/features/download_queue.py:587-593 | after removing every entry only canceled copies remain, exactly of the entries that were running or queued torrents |
| DownloadQueue.CancelAllIds | backend/features/download_queue.py:587-593 | removing every entry adds no id |
| DownloadQueue.RemoveAllStep | backend/features/download_queue.py:591-592 | removing from the back, each remove finds its entry in place and removes it as a single remove would |
| DownloadQueue.DropOtherMega | backend/features/download_queue.py:80-90 | the corrected MEGA sweep keeps distinct ids |
| DownloadQueue.MegaSweepComplete | backend/features/download_queue.py:80-90 | after the corrected sweep no MEGA entry other than the failed one is left, and every other entry is |
| DownloadQueue.DropOtherMegaAsWritten | backend/features/download_queue.py:84-90 | removing while iterating never grows the queue |
| DownloadQueue.MegaSweepSkipsNeighbour | backend/features/download_queue.py:84-90 | with three MEGA entries and the first hitting its limit, the loop as written leaves the third queued; the corrected sweep removes it |
| DownloadQueue.PostFor | backend/features/download_queue.py:92-106 | success post-processing exactly for a download still downloading, shutdown, canceled and failed exactly for those states |
| DownloadQueue.AfterRun | backend/features/download_queue.py:73-109 | the entry settles in its end state, failed when the MEGA limit was reached, and no entry is added |
| DownloadQueue.TorrentStep | backend/features/download_queue.py:142-181 | a pass leaves the queue exactly for canceled, failed or importing, stops for shutdown, copies once while seeding with copy handling, removes from the client with files for canceled or failed and without for importing when completed torrents are deleted, and waits otherwise |
| DownloadQueue.QueueFileNames | backend/features/download_queue.py:608-613 | the basename of every file of every entry is in the list |
| DownloadQueue.GhostFiles | backend/features/download_queue.py:614-619 | every file of the folder that no entry names is selected, joined to the folder, and nothing else is |
| DownloadQueue.QueuedFileKept | backend/features/download_queue.py:602-623 | a file some entry is downloading is never selected for deletion |
| DownloadQueue.DownloadHandler.ProcessQueue | backend/features/download_queue.py:186-215 | the loop over the queue picks the entry NextRunning names, and changes nothing else |
| DownloadQueue.DownloadHandler.Add | backend/features/download_queue.py:410-494 | a link already in the queue adds nothing; a failed page adds nothing and returns its reason and blocklist entry; otherwise the prepared downloads are appended with the ids SQLite gives them, counting on from the largest id still in the table (so the ids of entries that left come back), and the queue is processed; ids stay distinct |
| DownloadQueue.DownloadHandler.Remove | backend/features/download_queue.py:540-585 | an unknown id raises DownloadNotFound and changes nothing; otherwise the queue becomes AfterRemove, a queued torrent is removed from its client, and the entry is blocklisted iff asked |
| DownloadQueue.DownloadHandler.RemoveAll | backend/features/download_queue.py:587-593 | the loop of removes from the back leaves CancelAll of the queue |
| DownloadQueue.DownloadHandler.RunDownload | backend/features/download_queue.py:66-113 | the entry settles and gets the post-processing of its state; a shutdown leaves everything in place; otherwise the entry leaves the queue, the next direct entry starts, and with the MEGA limit reached every other MEGA entry leaves |
| DownloadQueue.DownloadHandler.RunTorrentDownload | backend/features/download_queue.py:115-184 | one TorrentStep per poll until one ends the loop, seeding post-processing at most once and never with complete handling, and the entry leaves the queue exactly when the last action says so |
| DownloadQueue.TorrentActions | backend/features/download_queue.py:140-181 | one action per poll, each the TorrentStep of its poll given whether the files were copied before; no action but the last ends the loop, and the loop ends before the polls run out only on an ending action; the seeding copy happens at most once and never with complete handling |
| DcppAirDcpp.GetDcppLinkComponents | backend/implementations/dcpp_clients/airdcpp.py:21-39 | a link parses only when it has exactly five pipe-separated fields once the prefix is removed and its three number fields read as integers the way `int()` reads them; the text fields hold no pipe character, and anything else raises ValueError |
| Strings.ParseIntToString | backend/implementations/dcpp_clients/airdcpp.py:37 | `int()` reads back the text `str()` gives of any integer |
| Strings.ParseIntSpaces | backend/implementations/dcpp_clients/airdcpp.py:37 | `int()` ignores a whitespace character on either side of the text |
| Strings.ParseIntUnderscore | backend/implementations/dcpp_clients/airdcpp.py:37 | `int()` reads '-1_0' as -10, an underscore between digits being allowed |
| Strings.ParseIntRefuses | backend/implementations/dcpp_clients/airdcpp.py:37 | `int()` refuses a doubled or leading underscore and a space after the sign |
| DcppAirDcpp.IntFieldAvoidsPrefix | backend/implementations/dcpp_clients/airdcpp.py:42-61 | a rendered integer field holds neither a pipe character nor the link prefix |
| DcppAirDcpp.DcppLinkRoundTrip | backend/implementations/dcpp_clients/airdcpp.py:21-61 | parsing a link made from five components, with text fields free of the pipe character and the prefix, gives the components back |
| DcppAirDcpp.StateOfStatus | backend/implementations/dcpp_clients/airdcpp.py:71-80 | 'new' and 'queued' map to queued, 'download_error' to failed, and every other or missing status to importing |
| DcppAirDcpp.Login | backend/implementations/dcpp_clients/airdcpp.py:91-135 | missing credentials, no connection, status 412 and status 401 each give their message; a session is made only otherwise, with the bearer token; a reply without a token raises |
| DcppAirDcpp.Test | backend/implementations/dcpp_clients/airdcpp.py:264-278 | no message exactly when the login succeeds, else one of the four login messages |
| DcppAirDcpp.TargetName | backend/implementations/dcpp_clients/airdcpp.py:153-154 | no target name exactly when none was given; a given name is replaced by the link's last pipe-separated field |
| DcppAirDcpp.LastFieldIsSuffix | backend/implementations/dcpp_clients/airdcpp.py:154 | the last field of a split text ends the text |
| DcppAirDcpp.RenameIgnored | backend/implementations/dcpp_clients/airdcpp.py:153-154 | any two given names send the same target name |
| DcppAirDcpp.AddOutcome | backend/implementations/dcpp_clients/airdcpp.py:173-189 | the bundle id exactly when the reply is a dict with bundle info; DownloadLimitReached for this client exactly when the message mentions a download limit in any case; ExternalClientNotWorking otherwise |
| DcppAirDcpp.SizeAndProgress | backend/implementations/dcpp_clients/airdcpp.py:209-217 | a positive size is kept with a percentage progress within 0 to 100; otherwise size -1 and the downloaded bytes as progress |
| DcppAirDcpp.StallStep | backend/implementations/dcpp_clients/airdcpp.py:223-237 | a failing bundle never registered raises KeyError; the tracker keeps every other bundle; failed is reported only for a bundle whose failure was already recorded |
| DcppAirDcpp.SecondFailureReportsFailed | backend/implementations/dcpp_clients/airdcpp.py:223-235 | the second failing poll in a row of a registered bundle reports failed |
| DcppAirDcpp.HealthyPollRearms | backend/implementations/dcpp_clients/airdcpp.py:223-237 | the first failing poll after a healthy one records the time and reports downloading |
| DcppAirDcpp.TimeoutIgnored | backend/implementations/dcpp_clients/airdcpp.py:229-235 | the failing-torrent timeout never changes the state reported |
| DcppAirDcpp.PollBundle | backend/implementations/dcpp_clients/airdcpp.py:200-244 | no bundle gives None for a bundle this client tracks and an empty dict otherwise; a bundle gives a status record |
| DcppAirDcpp.AddThenDeleteVisibility | backend/implementations/dcpp_clients/airdcpp.py:188-261 | a vanished bundle polls as None after it was added and as an empty dict after it was deleted |
| DcppAirDcpp.FormatResults | backend/implementations/dcpp_clients/airdcpp.py:340-365 | one result per hit with its name as title and the client's title as source, whose link parses back to the client, instance, hit id, tth and name |
| DcppAirDcpp.AirDcpp.EnsureLogin | backend/implementations/dcpp_clients/airdcpp.py:137-145 | an existing session is kept; otherwise a login failure raises its message and a success is stored |
| DcppAirDcpp.AirDcpp.AddDownload | backend/implementations/dcpp_clients/airdcpp.py:147-189 | a bad link raises before logging in; a failed login raises and sends nothing; otherwise the request for the link's instance and result is sent and a returned bundle id is tracked with no timestamp |
| DcppAirDcpp.AirDcpp.GetDownload | backend/implementations/dcpp_clients/airdcpp.py:191-244 | a failed login raises; otherwise the result and tracker are those of PollBundle |
| DcppAirDcpp.AirDcpp.DeleteDownload | backend/implementations/dcpp_clients/airdcpp.py:246-262 | a failed login raises; otherwise the remove request is sent and the bundle is untracked, raising KeyError for one never tracked |
| DcppAirDcpp.AirDcpp.Search | backend/implementations/dcpp_clients/airdcpp.py:308-367 | a failed login raises; otherwise the formatted results of the hits |
| DirectAirDcpp.BaseUrlOf | backend/implementations/direct_clients/airdcpp.py:44-54 | no base URL exactly for an empty or missing URL; otherwise exactly one '/' between the URL and api/v1/ |
| DirectAirDcpp.BaseUrlSlashInsensitive | backend/implementations/direct_clients/airdcpp.py:46-51 | a URL with and without a trailing '/' give the same base URL |
| DirectAirDcpp.AuthHeader | backend/implementations/direct_clients/airdcpp.py:75-76 | a bearer header with the token exactly when the token is non-empty |
| DirectAirDcpp.ApiRequest | backend/implementations/direct_clients/airdcpp.py:56-99 | no URL raises 'URL not configured', an unknown method raises ValueError, a status of 400 or more raises with the status and text; success exactly otherwise, returning the JSON body or {} |
| DirectAirDcpp.Account | backend/implementations/direct_clients/airdcpp.py:105-157 | the token of a JSON-object reply exactly when both credentials are given and the request succeeds; every failure is ClientNotWorking prefixed 'Failed to login to AirDC++: ' |
| DirectAirDcpp.ParseLink | backend/implementations/direct_clients/airdcpp.py:200-206 | with the scheme removed, the link splits at its first two '/' into instance, result and file name; fewer than two '/' fails with the IndexError's text behind 'Failed to initialize AirDC++ download: ' |
| DirectAirDcpp.Init | backend/implementations/direct_clients/airdcpp.py:200-219 | initialisation succeeds exactly when the link parses and a client is found, keeping the link's parts and the client; a bad link fails with the index error, and a parsed link without a client with 'Failed to initialize AirDC++ download: AirDC++ client is not configured' |
| DirectAirDcpp.CountAbsent | backend/implementations/direct_clients/airdcpp.py:203 | a text without the separator has none to split at |
| DirectAirDcpp.CountConcat | backend/implementations/direct_clients/airdcpp.py:203 | joining at a separator adds one separator to the count |
| DirectAirDcpp.LinkRoundTrip | backend/implementations/direct_clients/airdcpp.py:516-527 | parsing a created link gives its three parts back when the ids hold no '/' and the scheme does not occur in the joined parts |
| DirectAirDcpp.SchemeAcrossSeparator | backend/implementations/direct_clients/airdcpp.py:516-527 | parts that each avoid the scheme can still form it across a '/', so the round trip needs the condition on the joined parts |
| DirectAirDcpp.PickClient | backend/implementations/direct_clients/airdcpp.py:224-262 | when no client is found the token cache is unchanged |
| DirectAirDcpp.PickClientFrame | backend/implementations/direct_clients/airdcpp.py:240-253 | only the cache slots of credentials tried can change |
| DirectAirDcpp.PickClientCached | backend/implementations/direct_clients/airdcpp.py:224-262 | a second lookup within the token lifetime returns the same client and cache without new logins |
| DirectAirDcpp.TokenCache.GetClient | backend/implementations/direct_clients/airdcpp.py:224-262 | the loop over the credentials computes PickClient |
| DirectAirDcpp.ProgressOf | backend/implementations/direct_clients/airdcpp.py:312-321 | the progress never exceeds 100, is not negative for a known size, and is 100 or 0 by the downloaded flag for an unknown size |
| DirectAirDcpp.Step | backend/implementations/direct_clients/airdcpp.py:294-357 | a continued poll always counts as one without progress, keeps the progress within 100, and a done status stops at 100 |
| DirectAirDcpp.Run | backend/implementations/direct_clients/airdcpp.py:294-357 | a normal end of the loop keeps the progress within 100 |
| DirectAirDcpp.EndsByBreak | backend/implementations/direct_clients/airdcpp.py:294-357 | a loop that ends by a break ends normally; a poll that is not a dict or reports a done status breaks |
| DirectAirDcpp.StopsByTenthPoll | backend/implementations/direct_clients/airdcpp.py:333-348 | when every poll reports the bundle downloaded, the loop ends by the tenth poll, whatever the byte counts, and it ends there by a break unless a poll raised |
| DirectAirDcpp.DownloadFailure | backend/implementations/direct_clients/airdcpp.py:362-366 | DownloadLimitReached exactly when the message mentions a download limit in any case, else 'Download failed: ' with the message |
| DirectAirDcpp.OpenDownload | backend/implementations/direct_clients/airdcpp.py:190-262 | the link is parsed before any client lookup, so a bad link leaves the token cache as it was; otherwise the cache becomes what PickClient leaves, and the outcome is Init's for the client found, a fresh idle download on success |
| DirectAirDcpp.DirectDownload.Stop | backend/implementations/direct_clients/airdcpp.py:373-381 | downloading is cleared and nothing else changes |
| DirectAirDcpp.DirectDownload.Download | backend/implementations/direct_clients/airdcpp.py:264-371 | a failed start raises its failure; otherwise the polling loop computes Run, a raised error is mapped by DownloadFailure, and a normal end reports 100%; downloading stays set after a failed start, a raised error or a break, and is cleared when the loop ends because stop() was called (the polls ran out) |
| DirectAirDcpp.HitsOf | backend/implementations/direct_clients/airdcpp.py:456-474 | a failed request gives no hits; a list is returned as is, a dict gives its results list, anything else none |
| DirectAirDcpp.SearchSession.CreateSearchInstance | backend/implementations/direct_clients/airdcpp.py:397-416 | the id of a JSON-object reply is stored and returned; any other outcome returns none and keeps the old id |
| DirectAirDcpp.SearchSession.PerformSearch | backend/implementations/direct_clients/airdcpp.py:418-474 | an existing instance is kept; otherwise the id of a created instance is stored, and any other creation outcome keeps the old id; no instance gives no hits, and otherwise the hits of the results unless starting the search failed |
| DirectAirDcpp.SearchSession.CloseSearchInstance | backend/implementations/direct_clients/airdcpp.py:503-513 | the instance is forgotten exactly when there was one and its deletion succeeded |
| Transmission.StateOf | backend/implementations/torrent_clients/Transmission.py:30-38 | a non-zero error is failed; otherwise status 0 is paused, 1, 2 and 4 downloading, 3 queued, 5 and 6 seeding, and any other status importing |
| Transmission.StallStates | backend/implementations/torrent_clients/Transmission.py:205-217 | a potential stall of a torrent without error is always downloading or queued, so only an error keeps it off the stall clock |
| Transmission.StallStep | backend/implementations/torrent_clients/Transmission.py:209-226 | the tracker keeps every other hash; failed is reported exactly for a failed torrent or a potential stall, not seeding, whose clock has run past a non-zero timeout; anything that is not a potential stall resets the clock |
| Transmission.StallTimesOut | backend/implementations/torrent_clients/Transmission.py:212-224 | a new stall reports downloading, and the next stalled poll reports failed exactly when the time since the first one passes a non-zero timeout |
| Transmission.EnsureSessionId | backend/implementations/torrent_clients/Transmission.py:51-87 | basic auth is used with both credentials; a 409 succeeds exactly with a session id, which is kept; 401 and 403 raise CredentialInvalid; any other failure raises ClientNotWorking |
| Transmission.Outcome | backend/implementations/torrent_clients/Transmission.py:122-136 | the arguments (or {}) exactly when the status is ok and the result is 'success'; 401 and 403 raise CredentialInvalid |
| Transmission.Rpc | backend/implementations/torrent_clients/Transmission.py:99-136 | the session changes only on a 409, taking its session id, and then the outcome is that of the single retry; a 409 without an id raises ClientNotWorking |
| Transmission.RetryOnlyAfterConflict | backend/implementations/torrent_clients/Transmission.py:113-120 | without a 409 the retry reply is never used and the session is unchanged |
| Transmission.RetriesOnce | backend/implementations/torrent_clients/Transmission.py:113-128 | a second 409 is not retried and raises ClientNotWorking |
| Transmission.Test | backend/implementations/torrent_clients/Transmission.py:249-284 | success only when the reply, after at most one session-id retry, is a successful RPC; failures are ClientNotWorking, CredentialInvalid or the connection error |
| Transmission.TestIsRpc | backend/implementations/torrent_clients/Transmission.py:99-136 | the connection test behaves exactly as an RPC call on a fresh session |
| Transmission.TorrentAddRequest | backend/implementations/torrent_clients/Transmission.py:144-156 | a download directory is sent exactly when the target folder is non-empty |
| Transmission.AddedHash | backend/implementations/torrent_clients/Transmission.py:160-176 | the hash of torrent-added, else of torrent-duplicate, else the magnet's info hash; neither entry raises ClientNotWorking |
| Transmission.FallbackHashIsBtih | backend/implementations/torrent_clients/Transmission.py:144-173 | without a hash in the reply the id is the magnet's info hash, whatever name the link was renamed to |
| Transmission.PollTorrents | backend/implementations/torrent_clients/Transmission.py:188-235 | no torrent gives None for a tracked hash and {} otherwise; a torrent gives its size, a progress within 0 to 100 and failed on a non-zero error |
| Transmission.TransmissionClient.Login | backend/implementations/torrent_clients/Transmission.py:89-148 | an existing session is kept; otherwise the handshake's session and the RPC URL are stored, or its error is raised |
| Transmission.TransmissionClient.Call | backend/implementations/torrent_clients/Transmission.py:99-136 | the call computes Rpc on the stored session and stores the session it leaves |
| Transmission.TransmissionClient.AddDownload | backend/implementations/torrent_clients/Transmission.py:138-176 | a failed login raises and sends nothing; otherwise the renamed link is sent and a returned hash is tracked with no timestamp |
| Transmission.TransmissionClient.GetDownload | backend/implementations/torrent_clients/Transmission.py:178-235 | a failed login raises; otherwise the result and tracker are those of PollTorrents on the RPC's torrents |
| Transmission.TransmissionClient.DeleteDownload | backend/implementations/torrent_clients/Transmission.py:237-247 | a failed login raises and sends nothing; otherwise the remove request is sent and, if it succeeds, the hash is untracked |
| QBittorrent.LoginForm | backend/implementations/torrent_clients/qBittorrent.py:26-32 | the credentials are posted exactly when both are given, and an empty form otherwise |
| QBittorrent.StateOf | backend/implementations/torrent_clients/qBittorrent.py:77-87 | queued exactly when no piece is held; downloading when uncompleted; seeding with a finite eta; importing with the eta 8640000 |
| QBittorrent.StatusOf | backend/implementations/torrent_clients/qBittorrent.py:89-100 | a total size of zero raises ZeroDivisionError; otherwise size, speed and state as reported, with a progress within 0 to 100 for consistent byte counts |
| QBittorrent.Poll | backend/implementations/torrent_clients/qBittorrent.py:66-100 | a 404 gives None once the torrent was seen and {} before; any other reply marks it seen and gives a status record when its size is non-zero |
| QBittorrent.Replay | backend/implementations/torrent_clients/qBittorrent.py:66-100 | successive polls give one result each |
| QBittorrent.NotFoundVerdict | backend/implementations/torrent_clients/qBittorrent.py:71-74 | a 404 gives {} exactly when no earlier poll found the torrent, and None after one did |
| QBittorrent.AddedId | backend/implementations/torrent_clients/qBittorrent.py:49-64 | the id is the text after 'urn:btih:' up to the next '&' of the renamed link; a link without it raises IndexError |
| QBittorrent.AddedIdIsBtih | backend/implementations/torrent_clients/qBittorrent.py:49-64 | for a magnet link the id is its info hash, whatever name the link was renamed to |
| QBittorrent.Test | backend/implementations/torrent_clients/qBittorrent.py:112-144 | no message exactly when the login is ok and sets a cookie; otherwise the message for no connection, a 404, another failure status, or a missing cookie |
| QBittorrent.QBittorrentClient.AddDownload | backend/implementations/torrent_clients/qBittorrent.py:43-64 | the renamed link is sent with the folder and the torrent tag, and the id is AddedId |
| QBittorrent.QBittorrentClient.GetDownload | backend/implementations/torrent_clients/qBittorrent.py:66-100 | the result and the found flag are those of Poll, and once found the flag stays set |
| QBittorrent.QBittorrentClient.DeleteDownload | backend/implementations/torrent_clients/qBittorrent.py:102-110 | the delete request names the hash and the delete-files flag |
| Sabnzbd.QueueState | backend/implementations/usenet_clients/sabnzbd.py:25-36 | a missing or 'Queued' status is queued, 'Paused' paused, 'Failed' failed, 'Extracting' and 'Moving' importing, and every other status downloading |
| Sabnzbd.HistoryState | backend/implementations/usenet_clients/sabnzbd.py:213-220 | a missing or 'Completed' status is downloading, 'Failed' failed, and every other status importing |
| Sabnzbd.Connect | backend/implementations/usenet_clients/sabnzbd.py:45-92 | a session exactly for an API key whose probe answers 200 with a queue and no error; otherwise the message for no key, 403, another status, an error, no queue, or no connection |
| Sabnzbd.Test | backend/implementations/usenet_clients/sabnzbd.py:296-317 | no message exactly when Connect succeeds, else Connect's message |
| Sabnzbd.NoTokenNoProbe | backend/implementations/usenet_clients/sabnzbd.py:59-60 | without an API key the probe reply makes no difference |
| Sabnzbd.AddParamsOf | backend/implementations/usenet_clients/sabnzbd.py:112-122 | the link is sent as the name, and an nzbname exactly when a non-empty download name is given |
| Sabnzbd.AddOutcome | backend/implementations/usenet_clients/sabnzbd.py:134-144 | the first nzo id, or 'unknown_id' without the list, only for a 200 reply whose status is true; a failure status raises with the text, a false status with the error or 'Unknown error', and an empty id list raises IndexError |
| Sabnzbd.FirstIndex | backend/implementations/usenet_clients/sabnzbd.py:178-212 | the first slot whose nzo id is the id, and none when no slot has it |
| Sabnzbd.FindSlot | backend/implementations/usenet_clients/sabnzbd.py:178-179 | the loop over the slots finds FirstIndex |
| Sabnzbd.FirstIndexIs | backend/implementations/usenet_clients/sabnzbd.py:178-179 | a slot with the id and none before it is the one found |
| Sabnzbd.QueueRecord | backend/implementations/usenet_clients/sabnzbd.py:180-193 | progress 0 without a size and within 0 to 100 for consistent sizes; the size in bytes is not negative; state and speed as reported |
| Sabnzbd.HistoryRecord | backend/implementations/usenet_clients/sabnzbd.py:213-252 | a history slot reports 100% progress, no speed, its byte size and HistoryState |
| Sabnzbd.Lookup | backend/implementations/usenet_clients/sabnzbd.py:162-254 | a slot in the queue wins; otherwise a history slot; None when neither has the id; never {}; a failed queue or history listing raises with its text |
| Sabnzbd.QueueShadowsHistory | backend/implementations/usenet_clients/sabnzbd.py:177-206 | when the queue holds the id, the history reply makes no difference |
| Sabnzbd.SabnzbdClient.EnsureConnected | backend/implementations/usenet_clients/sabnzbd.py:98-103 | an existing session is kept; otherwise Connect's session is stored, or its message raised |
| Sabnzbd.SabnzbdClient.AddDownload | backend/implementations/usenet_clients/sabnzbd.py:94-144 | a refused connection raises its message; a link not starting with http raises 'Only direct NZB URLs are supported'; otherwise AddParamsOf is sent and the result is AddOutcome |
| Sabnzbd.SabnzbdClient.GetDownload | backend/implementations/usenet_clients/sabnzbd.py:147-254 | a refused connection raises its message; otherwise the result is Lookup |
| Sabnzbd.SabnzbdClient.DeleteDownload | backend/implementations/usenet_clients/sabnzbd.py:257-294 | a refused connection raises and sends nothing; otherwise a delete is sent to the queue and then to the history, with the delete-files flag as 0 or 1 |
| Magnet.ValueEnd | backend/implementations/torrent_clients/qBittorrent.py:12 | the lazy value of the rename pattern ends at the first '&' from where it may end, with no newline before it, and is absent otherwise |
| Magnet.ValueEndAt | backend/implementations/torrent_clients/qBittorrent.py:12 | a value free of '&' and newline followed by '&' ends exactly at that '&' |
| Magnet.SubDnKeeps | backend/implementations/torrent_clients/qBittorrent.py:49-51 | the substitution leaves text before the first '&' untouched |
| Magnet.SubDnAtValue | backend/implementations/torrent_clients/qBittorrent.py:12-51 | a non-empty '&dn=' value followed by '&' is replaced by a name without backslashes, and the scan goes on from that '&' |
| Magnet.SubDnEmptyValue | backend/implementations/torrent_clients/qBittorrent.py:12-51 | an empty '&dn=' value gets the name, and the non-empty match re.sub requires after an empty one replaces the next parameter up to its '&' with the name again |
| Magnet.RenameReplacesValue | backend/implementations/torrent_clients/qBittorrent.py:12-51 | in a link with a non-empty '&dn=' value followed by '&', that value becomes the download name (without backslashes) and the text before it is kept |
| Magnet.BtihOf | backend/implementations/torrent_clients/qBittorrent.py:64 | a hash exactly when the link contains 'urn:btih:'; the hash holds no '&' |
| Magnet.BtihOfMagnet | backend/implementations/torrent_clients/qBittorrent.py:64 | the hash read from a magnet link is its info hash |
| Magnet.RenameKeepsBtih | backend/implementations/torrent_clients/qBittorrent.py:49-64 | renaming a magnet link never changes the info hash read from it |
| Mega.A32ToStr | backend/lib/mega.py:136-137 | four big-endian bytes per word |
| Mega.Unpack | backend/lib/mega.py:146 | one word per four bytes |
| Mega.StrToA32 | backend/lib/mega.py:140-146 | the bytes are zero-padded to a multiple of four and read as one word per four bytes |
| Mega.WordBytesWord | backend/lib/mega.py:136-146 | packing a word and unpacking its bytes gives the word back |
| Mega.UnpackPack | backend/lib/mega.py:136-146 | unpacking packed words gives the words back |
| Mega.PackUnpack | backend/lib/mega.py:136-146 | packing unpacked bytes of a length divisible by four gives the bytes back |
| Mega.A32RoundTrip | backend/lib/mega.py:136-146 | str_to_a32 undoes a32_to_str |
| Mega.BytesRoundTrip | backend/lib/mega.py:136-146 | a32_to_str undoes str_to_a32 up to the zero padding, and exactly for lengths divisible by four |
| Mega.ExtendedGcd | backend/lib/mega.py:158-163 | the Bezout identity a*x + b*y == g holds for the returned triple |
| Mega.ExtendedGcdDivides | backend/lib/mega.py:158-163 | for non-negative inputs the first component is non-negative and divides both |
| Mega.ExtendedGcdIsGcd | backend/lib/mega.py:158-163 | every common divisor of the inputs divides the first component, so it is their greatest common divisor |
| Mega.ModularInverse | backend/lib/mega.py:166-171 | a gcd other than 1 raises 'modular inverse does not exist'; a result r satisfies a*r = 1 modulo m and lies in 0..m-1 for positive m |
| Mega.Sextet | backend/lib/mega.py:174-190 | each of the 64 digit values has a base64 digit that reads back as that value |
| Mega.B64Encode | backend/lib/mega.py:186 | the standard base64 text has a length divisible by four |
| Mega.B64RoundTrip | backend/lib/mega.py:174-190 | the strict base64 decoder undoes the encoder |
| Mega.UrlPadding | backend/lib/mega.py:175 | the '=' padding brings every length except those of remainder 1 to a multiple of four, and adds nothing for remainder 1 |
| Mega.PaddingIndex | backend/lib/mega.py:175 | the slice start (2 - 3n) mod 4 cycles through 2, 3, 0, 1 with n mod 4 |
| Mega.Base64UrlEncode | backend/lib/mega.py:185-190 | the URL form holds no '+', '/' or '=' |
| Mega.UrlRoundTrip | backend/lib/mega.py:174-190 | base64_url_decode undoes base64_url_encode |
| Mega.A32Base64RoundTrip | backend/lib/mega.py:181-194 | base64_to_a32 undoes a32_to_base64 |
| Mega.GetChunks | backend/lib/mega.py:197-205 | the chunks sum to the size, grow by 128 KiB up to 1 MiB, the last is positive and at most the step for a positive size, and a size up to 128 KiB is one chunk |
| Mega.AttrJson | backend/lib/mega.py:208-212 | the attributes are read exactly when the text, stripped of trailing NULs, starts with 'MEGA{"', and then they are the text after 'MEGA' |
| Mega.MegaFilename | backend/lib/mega.py:247-249 | attributes that do not decrypt to JSON raise AttributeError; otherwise the name, or '' without one |
| Mega.RequestFailure | backend/lib/mega.py:43-97 | an error code from -1 to -22 gives its RequestError, and any other code raises KeyError from the table lookup |
| Mega.ApiOutcome | backend/lib/mega.py:344-359 | a reply 0 returns 0, -3 raises RuntimeError, any other integer code its request failure, an empty list IndexError, a non-list non-integer UnboundLocalError, and otherwise the first item |
| Mega.XorBits | backend/lib/mega.py:244-245 | the exclusive or of n-bit values fits in n bits |
| Mega.XorBitsCancel | backend/lib/mega.py:244-245 | applying the same exclusive or twice gives the value back |
| Mega.XorCancel | backend/lib/mega.py:244-245 | on 32-bit words, (a xor b) xor b == a |
| Mega.FileKey | backend/lib/mega.py:243-245 | a key of fewer than eight words raises IndexError; otherwise the file key has four words |
| Mega.FileKeyRecoversKey | backend/lib/mega.py:244-245 | each word of the first half of the key is the file key word xor the matching word of the second half |
| Mega.MacCheck | backend/lib/mega.py:433-438 | the download is accepted exactly when the meta MAC is the pairwise xor of the file MAC's words, else ValueError |
| Mega.ReadStep | backend/lib/mega.py:404-430 | each chunk read adds what the stream still holds, up to the chunk size, and the total stays within the file size |
| Mega.SumPrefix | backend/lib/mega.py:404-430 | the bytes read after some chunks never exceed the sum of all chunks |
| Mega.PercentWhole | backend/lib/mega.py:430 | a file read to the end shows 100% |
| Mega.MegaClient.ApiRequest | backend/lib/mega.py:326-359 | each request uses and then advances the sequence number, sends the sid when set, and returns ApiOutcome |
| Mega.MegaClient.DownloadUrl | backend/lib/mega.py:378-440 | a file without a download URL raises; the size is taken; a zero size raises ZeroDivisionError; a stop before the first chunk changes nothing; a file of more than 16 bytes whose first chunk read holds at most 16 raises UnboundLocalError, because the MAC loop never bound its index; otherwise the progress is the share read, 100% for a complete stream, and stays within 0 to 100 |
| Naming.SpecialVersionText | backend/implementations/naming.py:86-95 | no text exactly for Volume-As-Issue, Metadata and Normal volumes; every other special version has a label |
| Naming.RemoveCharGone | backend/implementations/naming.py:75 | removing '/' leaves no '/' and adds no character |
| Naming.RemovePairChars | backend/implementations/naming.py:76 | removing the two-backslash pair adds no character and keeps a leading non-backslash |
| Naming.RemovePairLeavesNoPair | backend/implementations/naming.py:76 | after the pair removal no two-backslash pair is left |
| Naming.SeriesName | backend/implementations/naming.py:73-77 | the series name holds no '/' and no two-backslash pair |
| Naming.SeriesNameKeepsClean | backend/implementations/naming.py:73-77 | a title without '/' or a backslash pair is kept unchanged |
| Naming.CleanSeriesNameMoves | backend/implementations/naming.py:79-84 | a leading "The " or "A " is moved behind a comma; any other name is kept |
| Naming.GetVolumeKeys | backend/implementations/naming.py:42-96 | the volume keys: series name, clean name, volume number zero-filled to at least the padding, special-version label with the override taking precedence |
| Naming.VolumeNumberPadded | backend/implementations/naming.py:91 | zero-filling keeps the volume number's digits at the end |
| Naming.IssueNumberKey | backend/implementations/naming.py:128-131 | the issue number key is None exactly when the number is empty and the padding adds nothing |
| Naming.MissingIssueNumberIsZeros | backend/implementations/naming.py:128-131 | a missing issue number becomes a run of zeros as long as the padding |
| Naming.GetIssueKeys | backend/implementations/naming.py:99-140 | issue keys extend the volume keys; the title is None exactly when it is empty after removing '/' and the backslash pair |
| Naming.RangeIssueNumber | backend/implementations/naming.py:227-241 | a range issue number is both zero-filled ends joined by " - ", each at least the padding long |
| Naming.RangeIssueNumberEnds | backend/implementations/naming.py:235-241 | the range text starts with the padded first number and ends with the padded last number |
| Naming.KeysFor | backend/implementations/naming.py:289-323 | exactly the five naming setting keys have a key set; any other key gives a lookup error |
| Naming.VolumeItems | backend/implementations/naming.py:158-161 | the volume items come in the order of the volume key names |
| Naming.IssueItems | backend/implementations/naming.py:243-246 | the issue items come in the order of the issue key names |
| Naming.Rendered | backend/implementations/naming.py:158-161 | the rendered map has exactly the item names as keys |
| Naming.RenderedValue | backend/implementations/naming.py:159 | a present value is used as is and a missing one renders as "Unknown" |
| Naming.FieldName | backend/implementations/naming.py:319 | a field's name is the text before its conversion or format spec |
| Naming.ParseField | backend/implementations/naming.py:319 | a field runs to its closing brace; no closing brace is a ValueError |
| Naming.ParseFormat | backend/implementations/naming.py:319 | a malformed format string is a ValueError |
| Naming.ParsePlainText | backend/implementations/naming.py:319 | a string without braces parses to its characters |
| Naming.Texts | backend/implementations/naming.py:319 | one text piece per character |
| Naming.FieldNames | backend/implementations/naming.py:317-321 | every field of the parsed format is among the collected names |
| Naming.FormatMap | backend/implementations/naming.py:158-243 | filling a format fails with KeyError exactly when one of its fields has no value |
| Naming.CheckFormat | backend/implementations/naming.py:298-328 | the platform's disallowed separator makes a format invalid; a valid result implies the format parses and the key is known; errors are ValueError for a malformed format and KeyError for an unknown key |
| Naming.CheckedFormatRenders | backend/implementations/naming.py:298-328 | a format that passes the check fills without KeyError from any items naming all allowed keys |
| Naming.CheckedFormatsRender | backend/implementations/naming.py:298-328 | a format that passes the check fills without KeyError from the volume or issue keys generated for its setting |
| Naming.ParseFormatField | backend/implementations/naming.py:319 | a format starting with a single brace parses that field first |
| Naming.ParseSingleField | backend/implementations/naming.py:319 | a plain single-field format parses to that one field |
| Naming.SingleFieldCheck | backend/implementations/naming.py:317-328 | a single-field format is valid exactly when the field is one of the setting's keys |
| Naming.SliceMiddle | backend/implementations/naming.py:513 | the middle part of a three-part concatenation is recovered by slicing |
| Naming.NumberedInjective | backend/implementations/naming.py:513 | different indexes give different " (n)" names |
| Naming.Tried | backend/implementations/naming.py:511-514 | the first n numbered names are n distinct names |
| Naming.SubsetSize | backend/implementations/naming.py:512 | a subset is no larger than its superset |
| Naming.ProbeIndex | backend/implementations/naming.py:510-514 | the probe stops at the first index whose name is free or equals the file's own name |
| Naming.ProbeStep | backend/implementations/naming.py:512-514 | each taken name probed is one more taken name, so the probe ends |
| Naming.Chosen | backend/implementations/naming.py:510-514 | the chosen name is the file's own name or not yet taken |
| Naming.ChooseAll | backend/implementations/naming.py:508-517 | one choice per planned rename |
| Naming.ChooseAllKeys | backend/implementations/naming.py:508-517 | the choices keep the planned sources in order |
| Naming.DropUnchanged | backend/implementations/naming.py:519-523 | exactly the renames whose source and target differ are kept |
| Naming.ChooseAllFree | backend/implementations/naming.py:507-517 | every chosen target is its own source or was free in the folder |
| Naming.ChooseAllDistinct | backend/implementations/naming.py:507-517 | chosen targets that differ from their sources are pairwise distinct |
| Naming.IndexedTargetsFresh | backend/implementations/naming.py:488-523 | no kept rename targets a file already in the folder |
| Naming.ProbeSettles | backend/implementations/naming.py:512-514 | the probe's stopping name is the chosen name |
| Naming.ChooseAllStep | backend/implementations/naming.py:508-517 | one loop iteration extends the choices by the current file's choice |
| Naming.ChooseAllUnfold | backend/implementations/naming.py:508-517 | the first choice is made against the folder's names and the rest against those plus it |
| Naming.NextFreeName | backend/implementations/naming.py:510-514 | the while loop returns the chosen name |
| Naming.SameNameIndexing | backend/implementations/naming.py:488-523 | a missing folder returns the plan unchanged; otherwise the renames with indexed targets, without the ones that stay put |
| Naming.PlanBody | backend/implementations/naming.py:583-619 | several issues give a range name, one issue an issue name, no issue a cover name for images and the stem otherwise; image pages of issues go in their own folder |
| Naming.Proposed | backend/implementations/naming.py:577-624 | one suggested path per file, in the volume folder |
| Naming.Suggestions | backend/implementations/naming.py:621-629 | exactly the files whose suggestion differs from their path are proposed |
| Naming.SuggestionsSkipSettled | backend/implementations/naming.py:627-629 | a file already at its suggested path is never proposed |
| Blocklist.ReasonText | backend/settings.py:47-52 | exactly the reason ids 1 to 4 have a reason text |
| Blocklist.ReasonId | backend/settings.py:47-52 | every blocklist reason maps to an id that has a reason text |
| Blocklist.BlocklistTable.EntryOf | backend/blocklist.py:37-53 | an entry shows its row's id, link and time, with the reason id joined to its text |
| Blocklist.BlocklistTable.GetEntry | backend/blocklist.py:37-54 | a stored id gives its entry; any other id raises BlocklistEntryNotFound |
| Blocklist.BlocklistTable.Add | backend/blocklist.py:73-90 | an already listed link returns its entry and inserts nothing; a new link with an unknown reason raises InvalidKeyValue and changes nothing; otherwise one row with a fresh id, the link, the reason and the time is inserted |
| Blocklist.BlocklistTable.DeleteEntry | backend/blocklist.py:56-64 | the row is removed; an absent id raises BlocklistEntryNotFound |
| Blocklist.BlocklistTable.DeleteAll | backend/blocklist.py:31-35 | the table is emptied |
| Blocklist.BlocklistTable.GetAll | backend/blocklist.py:13-29 | every row exactly once, as its entry, in descending id order |
| Blocklist.Listing | backend/blocklist.py:13-29 | every row once, joined with its reason text, in descending id order |
| RootFolders.RootFolderStore.GetAll | backend/root_folders.py:18-22 | the cache is reloaded when it is empty or the cache is not to be used; the listing holds every cached folder once, in ascending id order |
| RootFolders.RootFolderStore.Refresh | backend/root_folders.py:19-21 | a reload makes the cache equal to the table |
| RootFolders.RootFolderStore.GetOne | backend/root_folders.py:24-31 | the cache is reloaded first unless the cache is to be used; a cached id gives its folder, any other raises RootFolderNotFound |
| RootFolders.RootFolderStore.Add | backend/root_folders.py:33-49 | a folder that is not a directory raises FolderNotFound; a folder already stored raises IntegrityError; otherwise the folder, ending in the separator, is inserted under a fresh id and the cache reloaded |
| RootFolders.RootFolderStore.Delete | backend/root_folders.py:51-68 | a folder in use raises RootFolderInUse; an absent id raises RootFolderNotFound; otherwise the row is removed and the cache reloaded; errors change nothing |
| RootFolders.Listing | backend/root_folders.py:20-22 | every folder of the table once, in ascending id order |
| RootFolders.WithSep | backend/root_folders.py:38-39 | the folder ends in the separator, which is added only when missing |
| Settings.DefaultSettings | backend/settings.py:19-30 | the default settings hold exactly the default keys, with port 5656, log level info and the given download folder |
| Settings.Keys | backend/settings.py:71 | the keys of a settings request |
| Settings.AppliedEffect | backend/settings.py:95-99 | the batched update sets every requested key that exists and leaves all other settings unchanged |
| Settings.ApiKeyRejected | backend/settings.py:75-76 | a request that holds api_key is always rejected |
| Settings.LogFileRejected | backend/settings.py:87-91 | log_file is always rejected: InvalidSettingValue for a missing file, InvalidSettingKey otherwise |
| Settings.AcceptedRequest | backend/settings.py:71-93 | an accepted request has only known keys, an all-digit port, log level info or debug, an existing download folder and naming formats that pass the format check |
| Settings.FirstErrorAt | backend/settings.py:71-93 | the error raised is the one of the first rejected key |
| Settings.SettingsStore.GetSettings | backend/settings.py:57-64 | the cache is refreshed from the table only when it is empty or the cache is not to be used |
| Settings.SettingsStore.SetSettings | backend/settings.py:66-109 | a rejected key raises its error and changes nothing; otherwise all changes are written in one batch and the reloaded settings returned; an empty request writes nothing and returns the cached settings |
| Settings.SettingsStore.ResetSetting | backend/settings.py:111-120 | an unknown key raises InvalidSettingKey; otherwise the key is restored to its default and the reloaded settings returned |
| Tasks.NewTask | backend/tasks.py:173-223 | an unknown action raises KeyError; only the tasks without constructor arguments can be built by the scheduler |
| Tasks.Ids | backend/tasks.py:252 | the ids of the queue, in queue order |
| Tasks.AddedFresh | backend/tasks.py:251-259 | the new id is larger than every queued id, so it is fresh and the ids stay increasing |
| Tasks.AddedAllSnoc | backend/tasks.py:219-223 | adding tasks one by one appends them in order |
| Tasks.AddedAllShape | backend/tasks.py:219-223 | adding several tasks keeps the queue as a prefix and appends each task as queued with increasing ids |
| Tasks.FindFrom | backend/tasks.py:285-287 | the first position from the start index whose id matches, or none when no later entry matches |
| Tasks.PopAt | backend/tasks.py:288 | popping removes one entry |
| Tasks.PopAtIds | backend/tasks.py:288 | popping an entry removes exactly its id and keeps the ids increasing |
| Tasks.RemoveAsWrittenKeepsMatch | backend/tasks.py:285-288 | the as-written pop removes the entry before the match and keeps the matched task |
| Tasks.RemoveAsWrittenPopsHead | backend/tasks.py:285-288 | removing the second task pops the running head instead |
| Tasks.Rescheduled | backend/tasks.py:219-227 | a due interval task gets next run round(now + interval); one not due is unchanged |
| Tasks.RescheduledAll | backend/tasks.py:219-227 | each interval entry is rescheduled on its own |
| Tasks.DueTasksCount | backend/tasks.py:219-223 | at most one task per interval entry is enqueued, and none when nothing is due |
| Tasks.ScheduleStep | backend/tasks.py:219-232 | one scheduler iteration reschedules the current entry and enqueues its task when due |
| Tasks.TaskHandler.Add | backend/tasks.py:251-259 | a new task is appended as queued under id last id + 1, or 1 on an empty queue, which is fresh and positive |
| Tasks.TaskHandler.GetAll | backend/tasks.py:261-275 | one view per queued task with its id and status, in queue order |
| Tasks.TaskHandler.GetOneAsWritten | backend/tasks.py:277-282 | as written, a known id raises KeyError and an unknown id raises TaskNotFound |
| Tasks.TaskHandler.GetOne | backend/tasks.py:277-282 | a known id gives its view; an unknown id raises TaskNotFound |
| Tasks.TaskHandler.RemoveAsWritten | backend/tasks.py:284-297 | as written, a match behind the head pops the entry before it and then fails with AttributeError; the head raises TaskNotDeletable, an unknown id TaskNotFound, an empty queue IndexError |
| Tasks.TaskHandler.Remove | backend/tasks.py:284-297 | exactly a queued id behind the head is removed: its first entry behind the head is popped and every other entry stays in order; the head raises TaskNotDeletable, an unknown id TaskNotFound, an empty queue IndexError, and errors change nothing |
| Tasks.TaskHandler.ScheduleDue | backend/tasks.py:216-232 | every due interval task is enqueued in order and rescheduled; a due task that cannot be built stops the scheduler with its error |
| Tasks.TaskHandler.ScheduleOne | backend/tasks.py:220-232 | a due task is enqueued and its next run set to the rounded sum of now and its interval, or its construction error is returned with intervals and queue unchanged; a task that is not due changes nothing, and the history is never touched |
| Tasks.TaskHandler.ProcessHead | backend/tasks.py:183-240 | the head is run, noted in the history on success, its download results handed on one by one until a hand-over raises, and popped |

## Left out

- I/O is not modelled. HTTP requests, SQL statements, the file system, threads, sleeping, logging and the websocket are replaced by inputs or results. Each reply a method reads is a parameter, and so is the database answer or the file-system test (`isdir`, `isfile`) it depends on. The clock (`time()`) is a parameter `now`.
- The HTML scraping of download pages is not modelled because it is I/O and regular-expression work. This covers `_extract_get_comics_links` and `_extract_download_links` in backend/download.py, and the `SearchSources` classes of both search modules. Their results are inputs.
- The network probe of a link in backend/download.py is a parameter. This covers `_purify_link`'s requests, the download set-up that raises LinkBroken, and the filename extraction.
- The `DirectDownload` and `MegaDownload` classes of backend/download.py are not modelled because they only stream files. The same goes for `run`, `handle`, `add`, `get_all`, `get_one`, the entry formatting and the download history of its `DownloadHandler`.
- These parts of backend/features/download_queue.py are not modelled: `__init__`'s thread set-up, `stop_handle`, `get_all` (a listing of each entry's dict form), `create_download_folder`, the reading side of `__load_downloads` (only the covered-issues text is decoded), `get_download_history` and `delete_download_history`. They are I/O or formatting.
- DownloadQueue: the covered-issues column is taken to be the issue numbers joined by commas, because the database layer that writes it is not part of this model.
- DownloadQueue.DownloadHandler.RunTorrentDownload: the torrent client's `stop()` is not part of this model, so the model takes it to set the state to Canceled.
- Python's `float()` is modelled on decimal text only (`Files.FloatValue`). Infinities, NaN, underscores in the mantissa and binary floating-point precision are not modelled; values are exact reals. `Files.EntryValue` hands the raw cleaned entry to `float()` before any conversion, so an entry such as 'inf', 'nan' or '1_0' that Python reads as a float falls through to the letter conversion in the model and gives a different number (0.034057023 for 'inf', 1.0 for '1_0'); the converted text read afterwards holds only digits and '.'.
- Character classes are ASCII only: `str.isdigit`, `str.lower`, `\w` and `\s`. Whitespace is the space, '\t' to '\r' and '\x1c' to '\x1f', as `str.isspace` has it on ASCII. Unicode digits (which `int()` also reads), case folding and whitespace beyond ASCII are not modelled.
- Settings: every value is held as a string, including the default port and database version. The side effect of `set_log_level` is not modelled.
- Settings: the legacy `backend.naming.check_format` that `set_settings` calls is not part of this model. It is a parameter whose result, as in the source, is not used to reject anything.
- Settings.SettingsStore.SetSettings: the request is a list with distinct keys, standing for the Python dict the source receives.
- `generate_api_key` in backend/settings.py is not modelled, because its value comes from `os.urandom`.
- Tasks: the scheduler reads the clock once per pass, so both `time()` calls of one pass use the same `now`. The queue, a class attribute shared by all handlers, is a field of the one handler. What a task does when it runs is an input, namely its outcome. `get_task_history`, `delete_task_history` and `stop_handle` are not modelled because they are I/O.
- RootFolders.RootFolderStore.GetAll: the cache is not required to equal the table, because the source returns a stale cache when `use_cache` holds.
- LegacySearch.Rating: a range issue number falls into the last branch of the fourth rating component. The branch for string ranges is never taken, because the parser yields tuples, not strings.
- LegacyDownload.ProcessExtracted: a group whose issue number is 0.0 is dropped, because 0.0 is falsy in Python. This is modelled as written.
- FeatureSearch: the helper functions of backend/features/search.py whose bodies are outside the modelled files are parameters. These are the match test, the issue-range helpers and the database answers. In the part choice, the branch for one-shot, hard-cover and TPB volumes cannot be reached, because the part loop runs only for normal and volume-as-issue volumes.
- LegacyDownload.TestPaths: `_test_paths` is split into the methods TestPaths, RunPathLoop, TryGroup and TrySource, with the specification function TestPathsSpec. The blocklist it consults and the download it sets up are parameters.
- DownloadQueue.DownloadHandler.Remove: the source writes the blocklist entry itself (through `add_to_blocklist`). The model returns the entry as the output `blocklisted`, and the caller records it. The same holds for the failed pages of `add`.
- AirDCPPSearch.download_result in backend/implementations/direct_clients/airdcpp.py is not modelled. It is a search-instance call whose reply is only passed on.
- The `final_files` scan of SABnzbd's history (an `os.walk` over the storage path) is not modelled, because it is file-system I/O.
- The speed of a direct AirDC++ download, timed with `perf_counter`, is not modelled, because it is a clock reading.
- DownloadQueue.DownloadHandler.Add: the rows of the `download_queue` table are taken to be exactly the queue's entries, so the next id is computed from the queue. The short window in another thread between deleting a row and removing its entry from the queue is not modelled.
- DirectAirDcpp.DirectDownload.Download: `stop()` runs in another thread. The model takes the polls made before it as an input, and running out of them is the call to `stop()`.
- DirectAirDcpp.StopsByTenthPoll: the stall counter of the direct AirDC++ download goes up on every poll. The last size is set before it is compared, so the poll always looks stalled. This is modelled as written.
- DcppAirDcpp.TimeoutIgnored: the second failing poll reports failed whatever the timeout setting. This is modelled as written.
- Mega: these parts are abstract:
  - AES-CBC and AES-CTR decryption, and the MAC computation (the file's MAC is an input);
  - RSA, `mpi_to_int`, `login_anonymous`, `_login_process` and the URL parsing of `_parse_url`, which use cryptography or regular expressions;
  - the retry of requests on RuntimeError, a timing policy;
  - resetting `downloading` when a download stops.
- Mega.B64Decode is strict. Python's `b64decode` silently drops characters outside the alphabet, and that is not modelled.
- QBittorrent: the login at construction is modelled only as the choice of the login form, because the session it creates is I/O.
- Transmission: the fields of a torrent reply arrive already defaulted, so a missing field is read as 0.
- Naming: these functions are not modelled:
  - `generate_volume_folder_name`, `generate_issue_name` and `generate_image_name`, beyond the keys, the range text and the format filling modelled here;
  - `check_mock_filename`;
  - `mass_rename`.
  They depend on the database, on regular-expression parsing of file names (`extract_filename_data`, `file_importing_filter`) or on renaming files.
- Naming.ParseFormat: `string.Formatter().parse` is modelled for flat fields. A nested `{` inside a field is refused. Conversions and format specifications are accepted but not applied.
- Helpers: `delete_file_folder` is not modelled, because it is file-system I/O.
- Magnet.SubDn: the download name is inserted as given. `re.sub` treats it as a template: backslash escapes are expanded, and group references or unknown escapes raise `re.error`. That is not modelled, so the rename lemmas are stated for names without a backslash.
- Tasks.TaskHandler.ProcessHead: which hand-over to `download_handler.add` raises is an input (`addFails`), because the download queue's own failures are outside this step.
- DcppAirDcpp.AddOutcome: a dict reply with `bundle_info` but no `id` in it raises KeyError in the source. The reply type has no such case, so this KeyError is not modelled.

## Findings

| source | as written | input that shows it | evidently intended | confidence | as-written member | corrected member |
|---|---|---|---|---|---|---|
| backend/features/download_queue.py:84-90 | after a MEGA download, the other MEGA entries are removed from the queue while the loop iterates it, so the entry after each removed one is skipped | queue [MEGA 1 (the download that ran), MEGA 2, MEGA 3]: 2 is removed and 3 stays in the queue | every other MEGA entry is removed | not executed | DownloadQueue.MegaSweepSkipsNeighbour | DownloadQueue.MegaSweepComplete |
| backend/helpers.py:19-22 | the log message adds `version_info.major` (an int) to a string, so an unsupported Python raises TypeError instead of returning False | Python 3.7.17 | return False on Python older than 3.8 | not executed | Helpers.OldPythonRaises | Helpers.CheckPythonVersionAgrees |
| backend/tasks.py:284-297 | `remove` searches `queue[1:]` but pops index i of the whole queue, which is the entry before the match; it then reads `display_name`, which tasks do not have | queue [task 1 (running), task 2]; remove(2) pops task 1 and then raises AttributeError | pop the matching task and return | not executed | Tasks.RemoveAsWrittenPopsHead | Tasks.TaskHandler.Remove |
| backend/tasks.py:277-282 | `get_one` passes an already formatted entry to `_format_entry`, which reads its missing `task` key | any queued task id | return the formatted entry of that task | not executed | Tasks.TaskHandler.GetOneAsWritten | Tasks.TaskHandler.GetOne |
| backend/search.py:278-309 | the overlap test of the automatic part choice checks only the ends of a new range, and compares a range with a single-number part by indexing a float | a chosen part 2-3 and a new result 1-4 are both chosen; a chosen part 1 followed by a result 2-3 raises TypeError | choose only parts that overlap no chosen part | not executed | LegacySearch.ContainingRangeSelectedAsWritten | LegacySearch.SelectParts |
| backend/download.py:348-368 | the conflict test between a path entry and a new range checks only the ends of the new range | an entry covering 2-3 and a new group covering 1-4 join the same path | a range that contains an entry's range conflicts with it | not executed | LegacyDownload.ContainingGroupJoinsAsWritten | LegacyDownload.BuildPathsOk |
