# Miro core logic in Dafny

This project models the decision logic at the centre of the Miro video
player's Python library and proves properties of it. It covers six parts.

- **util.py.** Covered: the text helpers (`clamp_text`, `ascii_lower`,
  `escape`, `entity_replace`), the URL checks (`is_url`, the magnet-link
  helpers, `quote_unicode_url`), the enclosure ranking behind
  `get_first_video_enclosure`, `AutoLoggingStream.write`, the
  column-major `Matrix` and the least-recently-used `Cache`.
- **itemlist.py.** Covered: `PlaylistSort`, which keeps a map from item id
  to position, and the status and album sort keys. It also covers
  `ItemList`, which splits items between the displayed table model and the
  hidden items its filter rejects.
- **workerprocess.py.** Covered:
  - the task-id counter;
  - `_SinglePriorityQueue`, with per-class FIFOs cycled round-robin;
  - the strict-priority `WorkerTaskQueue` and its cancellation by path;
  - the worker's routing of incoming messages;
  - the draining of the main-thread tasks;
  - the main process's table of callbacks for tasks in progress
    (`MiroTaskQueue`).
- **subprocessmanager.py.** Covered: the length-prefixed framing of pickles
  on a pipe, the responder's batching of idle callbacks, and the mapping
  from a thread's end to its quit type. It also covers the child's
  start-up message checks and the `SubprocessManager` lifecycle with its
  restart decision.
- **itemlistwidgets.py.** Covered: `ListView.allocate_widths` (sharing
  spare width by weight, with a rounding carry and clipping to minimum
  widths), the sorter set and sort indicators, and the view toggler and
  filter buttons. It also covers the resume-playback button and its
  holder, the titlebar's small-width mode, the feed toolbar's
  auto-download cycle, the details expander and the details label widths.
- **browser.py.** Covered: the guide browser's URL interception policy,
  which decides between load, download and subscribe and includes the
  one-shot bypass for unknown URLs. It also covers the rule by which the
  loading indicator shares its space between the download icon and the
  throbber.

Each module follows one component. The modules are Base, UtilText,
UtilUrl, UtilEnclosure, UtilStream, UtilMatrix, UtilCache, ItemSorts,
PlaylistSorting, ItemLists, WorkerProcess, Subprocesses, ListViews,
Sorters, ItemListWidgets and Browsers.

Code that is built from expressions becomes functions with lemmas about
them. Objects whose methods update fields become classes. Their methods
are proved against specification functions on their state, and the
properties of those functions are proved as lemmas.

## Model

| member | source | states |
|---|---|---|
| UtilText.ClampText | tv/lib/util.py:406-419 | the result never exceeds the limit (3 for limits below 4); a text within the limit is returned unchanged, a longer one is its first limit-3 characters plus "..." |
| UtilText.ClampTextIdempotent | tv/lib/util.py:406-419 | clamping a clamped text again changes nothing |
| UtilText.AsciiLower | tv/lib/util.py:1054-1066 | same length; each ASCII capital becomes its lower-case letter and every other character, non-ASCII included, is kept |
| UtilText.AsciiLowerIdempotent | tv/lib/util.py:1054-1066 | no ASCII capital survives, so lowering twice is lowering once |
| UtilText.Escape | tv/lib/util.py:761-776 | the three ordered replacements equal the character-by-character reference escape, and the result holds no '<' and no '>' |
| UtilText.EscapeMatchesReference | tv/lib/util.py:772-775 | replacing '&', then '<', then '>' over the whole text equals escaping each character on its own |
| UtilText.EscapeOneChar | tv/lib/util.py:772-775 | the three passes on one character give that character's escape |
| UtilText.EscapeRefNoAngles | tv/lib/util.py:761-776 | an escaped text contains no angle bracket |
| UtilText.EntityReplace | tv/lib/util.py:968-984 | the result is the ten (entity, character) replacements applied in the source's order |
| UtilText.EntityReplaceLeavesPlainText | tv/lib/util.py:968-984 | a text without '&' comes back unchanged |
| UtilText.EntityReplaceDecodesAngles | tv/lib/util.py:968-984 | "&lt;" decodes to "<" and "&gt;" to ">" |
| UtilText.EntityReplaceKeepsUnknownEntity | tv/lib/test/utiltest.py:447 | an entity outside the table, "&#35;", comes back unchanged |
| UtilText.EntityReplaceUndoesEscapeWithoutAmpersand | tv/lib/util.py:968-984 | entity_replace inverts escape on every text without '&' |
| UtilText.EntityReplaceDecodesTwice | tv/lib/util.py:968-984 | as written, the escape of "&lt;" ("&amp;lt;") decodes to "<", not back to "&lt;" |
| UtilText.EntityReplaceAmpLastUndoesEscape | tv/lib/util.py:968-984 | with the two '&' entities decoded last, entity replacement inverts escape on every text |
| UtilText.EntityReplaceAmpLast | tv/lib/util.py:968-984 | the corrected order of replacements, decoding '&' last |
| UtilUrl.Utf8CharBytes | tv/lib/util.py:591-602 | an ASCII character encodes to its own single byte, any other character only to bytes above 127 |
| UtilUrl.Utf8CharRoundTrip | tv/lib/util.py:591-602 | a character's 1 to 4 UTF-8 bytes decode back to its code point |
| UtilUrl.Utf8EncodeAscii | tv/lib/util.py:994-996 | a text is ASCII exactly when every byte of its UTF-8 encoding is below 128 |
| UtilUrl.QuoteUnicodeUrl | tv/lib/util.py:591-602 | the loop over the UTF-8 bytes gives the character-wise reference quoting, and the result is all ASCII |
| UtilUrl.QuoteMatchesReference | tv/lib/util.py:591-602 | quoting the byte string equals quoting each character's bytes |
| UtilUrl.QuoteBytesAscii | tv/lib/util.py:597-600 | percent-quoting produces only ASCII |
| UtilUrl.QuoteAsciiUnchanged | tv/lib/util.py:591-602 | an ASCII URL is returned unchanged |
| UtilUrl.QuoteIdempotent | tv/lib/util.py:591-602 | quoting a quoted URL changes nothing |
| UtilUrl.QuoteCedilla | tv/lib/util.py:591-602 | U+00E7 is quoted as "%C3%A7" |
| UtilUrl.HostPathFromMatches | tv/lib/util.py:986 | the regular-expression scan after the scheme accepts exactly a non-empty host without '/' or space, a '/', and a path without space |
| UtilUrl.IsUrl | tv/lib/util.py:986-999 | true exactly for a present, non-empty, all-ASCII text that the http/https pattern matches |
| UtilUrl.IsUrlAcceptsHttp | tv/lib/util.py:986-999 | "http://foo.bar.com/" is a URL |
| UtilUrl.IsUrlAcceptsHttps | tv/lib/util.py:986-999 | "https://foo.bar.com/" is a URL |
| UtilUrl.IsUrlRefuses | tv/lib/util.py:986-999 | a URL without a path or without a host is refused |
| UtilUrl.AlnumRun | tv/lib/util.py:1009 | the run of ASCII letters and digits from a position is maximal |
| UtilUrl.InfoHashFrom | tv/lib/util.py:1009-1018 | None exactly when no "btih:" is followed by a letter or digit from the position on; otherwise the leftmost such run |
| UtilUrl.InfoHashFromMagnet | tv/lib/util.py:1009-1018 | the leftmost maximal alphanumeric run preceded by "btih:", or None when there is none |
| UtilUrl.InfoHashIsMaximalRun | tv/lib/util.py:1009-1018 | a found hash is non-empty, alphanumeric, and cannot be extended |
| UtilUrl.IsMagnetUri | tv/lib/util.py:1001-1007 | true exactly for a text that starts with "magnet:" and carries an info hash |
| UtilEnclosure.IndexOf | tv/lib/util.py:67-68 | the first position of a type in the list, or the list's length when absent |
| UtilEnclosure.TypeIndex | tv/lib/util.py:659-661 | 0 for a missing or unknown type; otherwise the type's distance from the end of the preference list, between 1 and 12 |
| UtilEnclosure.TypeIndexOrder | tv/lib/util.py:659-661 | a more preferred type gets a larger index |
| UtilEnclosure.ParseSize | tv/lib/util.py:663-673 | a number exactly when the field is present, non-empty and all digits |
| UtilEnclosure.DecimalRoundTrip | tv/lib/util.py:663-667 | parsing the decimal spelling of a number gives the number back |
| UtilEnclosure.CmpStr | tv/lib/util.py:675-698 | string comparison is 0 exactly for equal strings and lies in -1..1 |
| UtilEnclosure.CmpEnclosures | tv/lib/util.py:675-698 | in -1..1, and 0 exactly when the two (isDefault, type index, bitrate, size) tuples are equal |
| UtilEnclosure.CmpStrAntisymmetric | tv/lib/util.py:675-698 | swapping the strings negates the comparison |
| UtilEnclosure.CmpStrTransitive | tv/lib/util.py:675-698 | string order is transitive |
| UtilEnclosure.CmpOptStrLaws | tv/lib/util.py:675-698 | comparison of optional strings, with None lowest, is antisymmetric, exact and transitive |
| UtilEnclosure.CmpKeyLaws | tv/lib/util.py:675-698 | tuple comparison is antisymmetric, exact and transitive |
| UtilEnclosure.CmpEnclosuresLaws | tv/lib/util.py:675-698 | cmp_enclosures is antisymmetric, reflexive-zero and transitive, so sorting by it is well defined |
| UtilEnclosure.CmpPrefersBiggerFile | tv/lib/util.py:675-698 | other fields equal, the bigger file is preferred and a size beats no size |
| UtilEnclosure.CmpPrefersType | tv/lib/util.py:675-698 | without isDefault, the more preferred type wins whatever the bitrates and sizes |
| UtilEnclosure.Filter | tv/lib/util.py:711 | keeps exactly the video enclosures |
| UtilEnclosure.BestIndex | tv/lib/util.py:714-715 | the element a stable sort puts first: no element beats it, and every earlier element is strictly worse |
| UtilEnclosure.BestLastWins | tv/lib/util.py:714-715 | a last element strictly better than the best of the rest becomes the best |
| UtilEnclosure.GetFirstVideoEnclosure | tv/lib/util.py:700-718 | None exactly when there is no enclosure list or no video enclosure; otherwise the best video enclosure, the earliest of equally good ones |
| UtilStream.Hex | tv/lib/util.py:141 | the hex digits of an escape have the requested width and are ASCII |
| UtilStream.EscapeNonAscii | tv/lib/util.py:141 | the backslash escape of a character is non-empty ASCII |
| UtilStream.BackslashReplaceAscii | tv/lib/util.py:140-141 | the encoding is all ASCII and leaves ASCII text as it is |
| UtilStream.BackslashReplaceIdempotent | tv/lib/util.py:140-141 | encoding an encoded text changes nothing |
| UtilStream.BackslashReplaceConcat | tv/lib/util.py:140-141 | the encoding works character by character: it distributes over concatenation |
| UtilStream.StripNewlineFacts | tv/lib/util.py:142-143 | exactly one final newline is dropped; a text without one is kept |
| UtilStream.LoggedDataWhole | tv/lib/util.py:139-145 | a write that does not end in a newline is logged whole: a unicode one once encoded, a byte string as it is |
| UtilStream.LoggedDataDropsNewline | tv/lib/util.py:139-145 | a final newline is dropped before logging, after the encoding a unicode write gets |
| UtilStream.LoggedDataNewline | tv/lib/util.py:139-145 | a text and the same text plus one newline log the same line, unicode or not |
| UtilStream.AutoLoggingStream.Write | tv/lib/util.py:139-145 | the callback receives the prefix plus the data without its final newline, a unicode write encoded to ASCII with backslashreplace and a byte string unchanged, and nothing when that is empty |
| UtilMatrix.PyIndex | tv/lib/util.py:937-941 | list indexing succeeds exactly for -len <= i < len, and a negative index counts from the end |
| UtilMatrix.FlatIndexInjective | tv/lib/util.py:937-941 | inside the grid, distinct cells have distinct flat positions, all below columns*rows |
| UtilMatrix.FirstIndexOf | tv/lib/util.py:955 | list.index: the first position of the value, or the length when it is absent |
| UtilMatrix.RemoveCount | tv/lib/util.py:951-956 | clearing the first occurrence leaves one fewer of the value and one more None |
| UtilMatrix.Collect | tv/lib/util.py:958-966 | a row or column read succeeds exactly when every cell read does, giving those values in order |
| UtilMatrix.Matrix.constructor | tv/lib/util.py:932-935 | columns*rows cells (none for a non-positive product), each holding the initial value |
| UtilMatrix.Matrix.Get | tv/lib/util.py:937-938 | found exactly when the flat index is a valid Python list index, giving that cell |
| UtilMatrix.Matrix.Set | tv/lib/util.py:940-941 | on a valid flat index only that cell changes and reads back the value; otherwise IndexError and nothing changes |
| UtilMatrix.Matrix.Remove | tv/lib/util.py:951-956 | clears the first cell equal to the value; ValueError and nothing changed when there is none |
| UtilMatrix.Matrix.GetInside | tv/lib/util.py:937-938 | a cell inside the grid is read from position column*rows + row |
| UtilMatrix.Matrix.ColumnIsSlice | tv/lib/util.py:963-966 | a column is one contiguous slice of the flat list |
| UtilMatrix.Matrix.RowIsStrided | tv/lib/util.py:958-961 | a row takes one cell from each column, rows apart |
| UtilMatrix.Matrix.GetWrapsAcrossColumns | tv/lib/util.py:937-938 | no per-coordinate bounds check: (c, r + rows) is the same cell as (c + 1, r) |
| UtilCache.SortByTime | tv/lib/util.py:1104-1105 | every key, in strictly increasing access time |
| UtilCache.KeepFrom | tv/lib/util.py:1108 | the keys after the first `from` of the sorted order are the newest ones, each newer than every key dropped |
| UtilCache.KeepEntries | tv/lib/util.py:1106-1113 | the rebuilt dictionaries hold exactly the listed keys with their old values and times |
| UtilCache.ShrinkBy | tv/lib/util.py:1102-1113 | keeps the invariant and the newest all-but-`dropped` entries, with unchanged values and times |
| UtilCache.StoreKeepsInv | tv/lib/util.py:1096-1100 | storing a key with the next counter value keeps the access times distinct and below the counter |
| UtilCache.ShrinkThenAddBounded | tv/lib/util.py:1096-1113 | for size 2 or more, shrinking a full cache and adding one key stays within size |
| UtilCache.SizeOneCacheGrows | tv/lib/util.py:1096-1113 | as written, Cache(1) keeps its one entry when shrinking, so the next new key makes two |
| UtilCache.EvictCount | tv/lib/util.py:1108 | the corrected number of entries to drop: at least one for a non-empty cache, len // 2 from two entries on |
| UtilCache.EvictingThenAddBounded | tv/lib/util.py:1096-1113 | with the corrected shrink, a full cache of any positive size stays within its size after one more key |
| UtilCache.Cache.constructor | tv/lib/util.py:1081-1085 | an empty cache with the given size and counter 0 |
| UtilCache.Cache.Get | tv/lib/util.py:1087-1094 | a hit returns the stored value and refreshes only its access time; a miss returns the value create_new_value gave on that call and sets it, so on a full cache only the newest half and the key survive, the survivors with their old values and times |
| UtilCache.Cache.Store | tv/lib/util.py:1099-1100 | records the next access time and stores the value |
| UtilCache.Cache.Set | tv/lib/util.py:1096-1100 | shrinks first exactly when the cache holds `size` entries, keeping the newest half; the key then holds the value with the newest time, every other entry keeps its old value and time, and for size 2 or more the cache stays within size |
| UtilCache.Cache.ShrinkSize | tv/lib/util.py:1102-1113 | keeps exactly the newest len - len // 2 entries, unchanged |
| UtilCache.Cache.SetEvicting | tv/lib/util.py:1096-1100 | corrected set: the cache never exceeds its size, and every other surviving entry keeps its value and time |
| UtilCache.Cache.ShrinkEvicting | tv/lib/util.py:1102-1113 | corrected shrink: keeps all but EvictCount(len) of the newest entries |
| ItemSorts.LexLessAsymmetric | tv/lib/frontends/widgets/itemlist.py:120-133 | tuple order is a strict order, never holding both ways round |
| ItemSorts.StrLessAsymmetric | tv/lib/frontends/widgets/itemlist.py:204-216 | string order is a strict order |
| ItemSorts.StatusKey | tv/lib/frontends/widgets/itemlist.py:120-133 | (2,) downloading, (3,) downloaded and unwatched, (4, expiration date) expiring, (0,) new and unviewed, (1,) viewed, each class stated as an if-and-only-if on the earlier tests failing |
| ItemSorts.StatusCircleKey | tv/lib/frontends/widgets/itemlist.py:105-118 | 1 downloading, 2 unwatched, 0 unviewed and not expiring, 3 viewed or expiring, each stated as an if-and-only-if with the same precedence |
| ItemSorts.CircleIsStatusRenumbered | tv/lib/frontends/widgets/itemlist.py:105-133 | the circle sort is the status sort with its classes renumbered and "expiring" merged into "other" |
| ItemSorts.StatusClassOrder | tv/lib/frontends/widgets/itemlist.py:120-133 | a lower status class always sorts first |
| ItemSorts.ExpiringByDate | tv/lib/frontends/widgets/itemlist.py:127-129 | expiring items sort among themselves by expiration date |
| ItemSorts.StatusClassTies | tv/lib/frontends/widgets/itemlist.py:120-133 | items of one class other than "expiring" tie |
| ItemSorts.ParseMode | tv/lib/frontends/widgets/itemlist.py:180-192 | a mode exactly for "standard", "feed" and "video" |
| ItemSorts.FeedKey | tv/lib/frontends/widgets/itemlist.py:204-216 | watched folders get 1, or -1 when the sort is reversed, other feeds 0; then the lower-cased feed name and the release date |
| ItemSorts.StandardKey | tv/lib/frontends/widgets/itemlist.py:198-202 | the standard mode's key, the same as AlbumSort's: album sort key, then track, then artist sort key |
| ItemSorts.VideoKey | tv/lib/frontends/widgets/itemlist.py:218-226 | the show, else the feed name, then the release date |
| ItemSorts.WatchedFoldersLast | tv/lib/frontends/widgets/itemlist.py:204-216 | in feed mode watched folders come after other feeds in both sort directions |
| ItemSorts.FeedNamesFollowDirection | tv/lib/frontends/widgets/itemlist.py:204-216 | among feeds of one kind, reversing the sort reverses the order of the names |
| ItemSorts.MultiRowAlbumSort.constructor | tv/lib/frontends/widgets/itemlist.py:176-178 | starts in standard mode, reversed exactly when not ascending |
| ItemSorts.MultiRowAlbumSort.SwitchMode | tv/lib/frontends/widgets/itemlist.py:180-192 | an unknown mode name is a ValueError that leaves the mode alone; a known one selects that mode |
| ItemSorts.MultiRowAlbumSort.SortKey | tv/lib/frontends/widgets/itemlist.py:194-226 | the key of the current mode: the album key, the feed key or the video key |
| PlaylistSorting.RepresentsIsBijection | tv/lib/frontends/widgets/itemlist.py:285-387 | the positions map is a bijection from its ids onto 0..n-1, inverse to the playlist order |
| PlaylistSorting.RepresentsKeys | tv/lib/frontends/widgets/itemlist.py:285-387 | the mapped ids are exactly the ids of the playlist order |
| PlaylistSorting.PositionsOf | tv/lib/frontends/widgets/itemlist.py:296-298 | numbering a list in turn maps exactly its ids, each to its last index |
| PlaylistSorting.PositionsOfDistinct | tv/lib/frontends/widgets/itemlist.py:362-365 | a list without repeats is numbered by its own positions |
| PlaylistSorting.Number | tv/lib/frontends/widgets/itemlist.py:296-298 | the numbering loop builds exactly that map |
| PlaylistSorting.AppendNewFacts | tv/lib/frontends/widgets/itemlist.py:312-315 | appending keeps the old order as a prefix, adds each new id once, and keeps the order free of repeats |
| PlaylistSorting.RepresentsSnoc | tv/lib/frontends/widgets/itemlist.py:314-315 | a new id placed at position n keeps the numbering exact |
| PlaylistSorting.Unseen | tv/lib/frontends/widgets/itemlist.py:318 | the listed ids that are not yet placed, in list order |
| PlaylistSorting.RepresentsPrepend | tv/lib/frontends/widgets/itemlist.py:317-327 | putting k new ids first and shifting every old position by k keeps the numbering exact |
| PlaylistSorting.FilterOut | tv/lib/frontends/widgets/itemlist.py:329-337 | the ids outside a set, in their order |
| PlaylistSorting.FilterOutSorted | tv/lib/frontends/widgets/itemlist.py:332-333 | the survivors are strictly increasing in their old positions |
| PlaylistSorting.SortedUnique | tv/lib/frontends/widgets/itemlist.py:332-333 | two lists with the same ids sorted by the same distinct positions are equal, so the sort's result is determined |
| PlaylistSorting.SortRemaining | tv/lib/frontends/widgets/itemlist.py:376-379 | sorting the remaining ids by position gives them in playlist order |
| PlaylistSorting.Reversed | tv/lib/frontends/widgets/itemlist.py:348-360 | element i of the result is element n-1-i of the list |
| PlaylistSorting.ReversedRepresents | tv/lib/frontends/widgets/itemlist.py:353-358 | sending position p to n-1-p numbers the reversed order exactly |
| PlaylistSorting.ReverseTwice | tv/lib/frontends/widgets/itemlist.py:348-360 | reversing twice restores the order and the positions |
| PlaylistSorting.FirstIndex | tv/lib/frontends/widgets/itemlist.py:382 | list.index: the first position of the id, or the length when absent |
| PlaylistSorting.MoveBeforeFails | tv/lib/frontends/widgets/itemlist.py:381-383 | the move is a ValueError exactly when `before` is given and is not among the ids that stay |
| PlaylistSorting.MoveBeforeShape | tv/lib/frontends/widgets/itemlist.py:376-385 | the new order is the staying ids cut at the insertion point around the moved ids |
| PlaylistSorting.MoveBeforeContents | tv/lib/frontends/widgets/itemlist.py:376-385 | the move keeps every id and adds the moved ones |
| PlaylistSorting.MoveBeforeKeepsOthers | tv/lib/frontends/widgets/itemlist.py:376-385 | the ids that do not move keep their relative order |
| PlaylistSorting.MoveBeforeDistinct | tv/lib/frontends/widgets/itemlist.py:367-387 | with no repeats in the playlist or the moved ids, the new order has none |
| PlaylistSorting.MoveBeforePlacement | tv/lib/frontends/widgets/itemlist.py:381-383 | the moved ids sit together, in their order, immediately before `before` |
| PlaylistSorting.MoveToEnd | tv/lib/frontends/widgets/itemlist.py:384-385 | without `before`, the moved ids go last |
| PlaylistSorting.ShiftAll | tv/lib/frontends/widgets/itemlist.py:321-322 | every position moves up by k |
| PlaylistSorting.NumberFrom | tv/lib/frontends/widgets/itemlist.py:324-325 | the new ids are numbered 0, 1, ... over the shifted map |
| PlaylistSorting.DeleteAll | tv/lib/frontends/widgets/itemlist.py:330-331 | succeeds exactly for distinct present ids, removing them; otherwise stops at the KeyError with the earlier ids removed |
| PlaylistSorting.ReverseLoop | tv/lib/frontends/widgets/itemlist.py:353-358 | the loop's positions are the reversed positions and its list is the reversed order |
| PlaylistSorting.StartInsert | tv/lib/frontends/widgets/itemlist.py:317-327 | the new map puts the unplaced ids first and numbers the new playlist order |
| PlaylistSorting.PrependNewFacts | tv/lib/frontends/widgets/itemlist.py:317-325 | add_items_at_start's positions: every placed id and every listed id has one; an old position moves up by the number of new ids, and the new ids take the positions below that number |
| PlaylistSorting.PlaylistSort.constructor | tv/lib/frontends/widgets/itemlist.py:285-298 | the initial ids numbered in turn, not reversed; with distinct ids the invariant holds |
| PlaylistSorting.PlaylistSort.SetAscending | tv/lib/frontends/widgets/itemlist.py:303-304 | only the reverse flag changes |
| PlaylistSorting.PlaylistSort.AddItems | tv/lib/frontends/widgets/itemlist.py:306-310 | at the end in playlist order, at the start once the order is reversed; the invariant is kept |
| PlaylistSorting.PlaylistSort.AddItemsAtEnd | tv/lib/frontends/widgets/itemlist.py:312-315 | unplaced ids take consecutive new positions in list order; placed ids keep theirs |
| PlaylistSorting.PlaylistSort.AddItemsAtStart | tv/lib/frontends/widgets/itemlist.py:317-327 | old positions shift by the number of new ids, which take 0..k-1 in list order; the counter is reset to n |
| PlaylistSorting.PlaylistSort.ForgetItems | tv/lib/frontends/widgets/itemlist.py:329-337 | KeyError for an unknown id; otherwise the rest renumbered 0.. in their old order |
| PlaylistSorting.PlaylistSort.ReverseOrder | tv/lib/frontends/widgets/itemlist.py:348-360 | positions reversed, the new order returned, the reversed flag flipped, so should_reverse_order now answers the opposite for either direction |
| PlaylistSorting.PlaylistSort.ShouldReverseOrder | tv/lib/frontends/widgets/itemlist.py:339-346 | true exactly when the clicked direction differs from the current one, which is ascending when the order is not reversed |
| PlaylistSorting.PlaylistSort.SetNewOrder | tv/lib/frontends/widgets/itemlist.py:362-365 | the given ids numbered in turn |
| PlaylistSorting.PlaylistSort.MoveIdsBefore | tv/lib/frontends/widgets/itemlist.py:367-387 | returns the moved order, positions then number it; ValueError changes nothing |
| PlaylistSorting.PlaylistSort.SortKey | tv/lib/frontends/widgets/itemlist.py:389-398 | the item's position, the playlist staying valid; a known item changes nothing, an unknown one is first added as add_items places it, at the end or at the start; the direction flags are framed out |
| PlaylistSorting.PlaylistSort.ItemsWillChange | tv/lib/frontends/widgets/itemlist.py:400-401 | the added items are placed as add_items places them, at the end or, reversed, first in list order; the direction flags are framed out |
| PlaylistSorting.PlaylistSort.ItemsRemovedFromSource | tv/lib/frontends/widgets/itemlist.py:403-404 | the removed items are forgotten as forget_items forgets them: a KeyError part-way for an unknown or repeated id, with the ids before it deleted, otherwise the rest renumbered in order; the direction flags never change |
| ItemLists.InfoMap | tv/lib/frontends/widgets/itemlist.py:529-532 | a batch filed by id: exactly the batch's ids, each holding an info with that id |
| ItemLists.InfoMapValues | tv/lib/frontends/widgets/itemlist.py:529-532 | every filed info comes from the batch |
| ItemLists.Select | tv/lib/frontends/widgets/itemlist.py:536-540 | the infos of a batch with the given filter verdict, drawn from the batch |
| ItemLists.SortBatch | tv/lib/frontends/widgets/itemlist.py:535-540 | the loop collects exactly the accepted infos and files exactly the rejected ones as hidden |
| ItemLists.FreshBatchSplits | tv/lib/frontends/widgets/itemlist.py:534-541 | a batch of new distinct ids leaves displayed and hidden ids disjoint |
| ItemLists.RouteOneSafe | tv/lib/frontends/widgets/itemlist.py:547-562 | routing one changed info keeps hidden ids out of the additions, updates and displayed rows except where a removal follows |
| ItemLists.RouteOneAgrees | tv/lib/frontends/widgets/itemlist.py:547-562 | every info routed to be added or updated passes the filter, every refiled hidden info fails it |
| ItemLists.RouteFromSafe | tv/lib/frontends/widgets/itemlist.py:547-562 | the same for the whole loop |
| ItemLists.RouteFromAgrees | tv/lib/frontends/widgets/itemlist.py:547-562 | the same for the whole loop |
| ItemLists.UpdateKeepsPartition | tv/lib/frontends/widgets/itemlist.py:543-565 | update_items keeps displayed and hidden ids disjoint and each info under its own id, for any batch |
| ItemLists.UpdateKeepsAgreement | tv/lib/frontends/widgets/itemlist.py:543-565 | update_items keeps "displayed passes, hidden fails" |
| ItemLists.RouteChanges | tv/lib/frontends/widgets/itemlist.py:544-562 | the loop builds the additions, removals, updates and hidden map of the reference routing |
| ItemLists.RouteOneOther | tv/lib/frontends/widgets/itemlist.py:547-562 | routing an info leaves every other id where it stood |
| ItemLists.RouteFromOthers | tv/lib/frontends/widgets/itemlist.py:547-562 | ids the batch does not name stay where they stood |
| ItemLists.RouteSingle | tv/lib/frontends/widgets/itemlist.py:547-562 | where the loop leaves an id the batch names once, by the filter's verdict and whether it was hidden |
| ItemLists.ApplyAt | tv/lib/frontends/widgets/itemlist.py:563-565 | additions, then updates, then removals: how the model then reads for one id |
| ItemLists.UpdateFilesChangedInfo | tv/lib/frontends/widgets/itemlist.py:543-565 | an id named once ends up displayed with the new info exactly when the filter accepts it, hidden with it otherwise |
| ItemLists.SplitRemovals | tv/lib/frontends/widgets/itemlist.py:567-574 | hidden ids leave `_hidden_items`; the ids not hidden are passed to the model |
| ItemLists.AddKeepsAgreement | tv/lib/frontends/widgets/itemlist.py:534-541 | add_items keeps "displayed passes, hidden fails" |
| ItemLists.AddKeepsPartition | tv/lib/frontends/widgets/itemlist.py:534-541 | a fresh batch keeps the list keyed and its two sides disjoint |
| ItemLists.MergeNothing | tv/lib/frontends/widgets/itemlist.py:529-532 | skipping an empty insertion changes nothing |
| ItemLists.AddBatch | tv/lib/frontends/widgets/itemlist.py:534-541 | the model gains exactly the accepted infos and `_hidden_items` exactly the rejected ones |
| ItemLists.AddKeeps | tv/lib/frontends/widgets/itemlist.py:534-541 | add_items keeps the list invariant for a fresh batch and the filter agreement for any batch |
| ItemLists.TakeMatching | tv/lib/frontends/widgets/itemlist.py:593-597 | the first loop takes exactly the hidden infos the filter now accepts |
| ItemLists.HideFailing | tv/lib/frontends/widgets/itemlist.py:600-605 | the second loop files exactly the displayed infos the filter now rejects |
| ItemLists.RecalculateSplits | tv/lib/frontends/widgets/itemlist.py:590-605 | the two loops together leave exactly the accepted infos displayed and the rejected ones hidden |
| ItemLists.RecalculateShows | tv/lib/frontends/widgets/itemlist.py:593-605 | the displayed side afterwards is the accepted part of the whole list |
| ItemLists.RecalculateHides | tv/lib/frontends/widgets/itemlist.py:593-605 | the hidden side afterwards is the rejected part of the whole list |
| ItemLists.FilterSet.constructor | tv/lib/frontends/widgets/itemlist.py:449 | the filter set with its verdict |
| ItemLists.ItemList.constructor | tv/lib/frontends/widgets/itemlist.py:445-453 | an empty model and no hidden items; valid and coherent |
| ItemLists.ItemList.Count | tv/lib/frontends/widgets/itemlist.py:468-470 | the number of displayed rows; with the hidden count it makes up the list's distinct infos, none counted twice |
| ItemLists.ItemList.HiddenCount | tv/lib/frontends/widgets/itemlist.py:472-474 | the number of hidden infos: the list's distinct infos less the displayed rows |
| ItemLists.ItemList.AddItems | tv/lib/frontends/widgets/itemlist.py:534-541 | accepted infos join the model, rejected ones `_hidden_items`; for fresh ids the invariant holds and each count grows by the ids that went to its side; the coherence always holds |
| ItemLists.ItemList.UpdateItems | tv/lib/frontends/widgets/itemlist.py:543-565 | the state after routing every changed info; the rows removed from the model lose their attributes and no others do; keeps the invariant and the coherence |
| ItemLists.ItemList.RemoveItems | tv/lib/frontends/widgets/itemlist.py:567-574 | the ids leave both sides, and their rows lose their attributes while every other row keeps its own; keeps the invariant and the coherence |
| ItemLists.RemovedCount | tv/lib/frontends/widgets/itemlist.py:567-574 | after remove_items each count falls by exactly the listed ids that side held |
| ItemLists.ItemList.RemoveAll | tv/lib/frontends/widgets/itemlist.py:576-579 | both sides and all row attributes emptied |
| ItemLists.ItemList.SetFilter | tv/lib/frontends/widgets/itemlist.py:581-585 | the filter set's verdict changes and nothing in the list does |
| ItemLists.ItemList.RecalculateHiddenItems | tv/lib/frontends/widgets/itemlist.py:590-605 | every info lands on the side the current filter decides, none lost; exactly the rows the filter now rejects lose their attributes |
| ItemLists.ItemList.SetShowDetails | tv/lib/frontends/widgets/itemlist.py:508-513 | sets the attribute of a displayed row; an unknown id is ignored |
| ItemLists.ItemList.UpdateThrobber | tv/lib/frontends/widgets/itemlist.py:515-524 | bumps the row's counter, from 0 when unset; KeyError for an id not in the model |
| ItemLists.ItemList.FinishThrobber | tv/lib/frontends/widgets/itemlist.py:526-527 | the row's counter is unset |
| WorkerProcess.LevelIndex | tv/lib/workerprocess.py:294-300 | every task priority (20, 10, 0) has a level in queues_by_priority holding that priority |
| WorkerProcess.PrioritiesDescending | tv/lib/workerprocess.py:294-300 | the levels are ordered strictly from highest to lowest priority and cover every task class's priority |
| WorkerProcess.ClassesAt | tv/lib/workerprocess.py:244-247 | a level's FIFOs are exactly the task classes with that priority, without repeats |
| WorkerProcess.IndexOf | tv/lib/workerprocess.py:253 | a class of a level has a FIFO slot, and only one |
| WorkerProcess.TaskIdCounter.constructor | tv/lib/workerprocess.py:66 | the id counter starts at 0 with nothing issued |
| WorkerProcess.TaskIdCounter.NewTask | tv/lib/workerprocess.py:65-71 | each new task gets the next counter value, unequal to and larger than every id issued before |
| WorkerProcess.Wrap | tv/lib/workerprocess.py:249 | the cycler's position wraps around the number of FIFOs |
| WorkerProcess.FirstReady | tv/lib/workerprocess.py:255-261 | the first non-empty FIFO in cycling order from the cursor, or none exactly when every FIFO from there on is empty |
| WorkerProcess.TakeFrom | tv/lib/workerprocess.py:255-261 | one get_next_task on a level keeps the classes, the number of FIFOs and a valid cursor |
| WorkerProcess.OffsetReaches | tv/lib/workerprocess.py:255-261 | within fifo_count steps the cycler reaches every FIFO |
| WorkerProcess.TakeNoneIffEmpty | tv/lib/workerprocess.py:256-259 | get_next_task returns None exactly when every FIFO of the level is empty |
| WorkerProcess.TakeFromEmpty | tv/lib/workerprocess.py:256-259 | on an empty level the cycler moves on one step and the FIFOs stay as they are |
| WorkerProcess.NextSlot | tv/lib/workerprocess.py:260-261 | on a busy level, the FIFO that is served is non-empty |
| WorkerProcess.TakePopsHead | tv/lib/workerprocess.py:260-261 | on a busy level, the task returned is the head of the served FIFO, which loses exactly it, and the cycler moves past that FIFO |
| WorkerProcess.TakeServesCursor | tv/lib/workerprocess.py:255-261 | when the FIFO under the cursor is busy it is the one served, so the classes of a level alternate |
| WorkerProcess.KeepMembers | tv/lib/workerprocess.py:270-271 | a message survives filtering exactly when it was present and the filter keeps it |
| WorkerProcess.KeepConcat | tv/lib/workerprocess.py:270-271 | filtering distributes over concatenation, so it keeps FIFO order |
| WorkerProcess.TakeKeepsLevelInv | tv/lib/workerprocess.py:255-261 | taking a task keeps every queued message in the FIFO of its own class |
| WorkerProcess.FilterKeepsLevelInv | tv/lib/workerprocess.py:263-273 | filtering keeps every queued message in the FIFO of its own class |
| WorkerProcess.EmptyLevel | tv/lib/workerprocess.py:240-250 | a new level holds its priority's classes, all FIFOs empty and the cycler at the start |
| WorkerProcess.EmptyQueuesInv | tv/lib/workerprocess.py:294-300 | the queues built by _init_queues satisfy the queue invariant |
| WorkerProcess.SinglePriorityQueue.constructor | tv/lib/workerprocess.py:240-250 | the new level is the empty level of its priority |
| WorkerProcess.SinglePriorityQueue.AddTask | tv/lib/workerprocess.py:252-253 | the task is appended to its class's FIFO; a class the level does not hold is refused (KeyError) and nothing changes |
| WorkerProcess.SinglePriorityQueue.GetNextTask | tv/lib/workerprocess.py:255-261 | the loop returns and leaves the state TakeFrom defines |
| WorkerProcess.SinglePriorityQueue.FilterMessages | tv/lib/workerprocess.py:263-273 | the class's FIFO keeps those messages the filter accepts, in order; an unknown class is refused and nothing changes |
| WorkerProcess.FirstBusy | tv/lib/workerprocess.py:332-338 | the first level with a queued task, or none exactly when every level is empty |
| WorkerProcess.TakeFirstIsFirstBusy | tv/lib/workerprocess.py:332-338 | _get_next_task returns None exactly when every level is empty, and otherwise takes the task from the first busy level |
| WorkerProcess.FirstBusyFrom | tv/lib/workerprocess.py:332-338 | the first busy level depends only on the levels' FIFOs |
| WorkerProcess.QueueInvCursors | tv/lib/workerprocess.py:249 | under the queue invariant every cursor is in range |
| WorkerProcess.TakenFromFirstBusy | tv/lib/workerprocess.py:332-338 | a returned task has the priority of the first busy level |
| WorkerProcess.StrictPriority | tv/lib/workerprocess.py:332-338 | every level with a higher priority than the returned task's is empty |
| WorkerProcess.FiledLevelIsFirstBusy | tv/lib/workerprocess.py:302-306 | a task added to empty queues makes its priority's level the first busy one, holding that task |
| WorkerProcess.FiledTaskIsNext | tv/lib/workerprocess.py:302-338 | a task added to empty queues is the next one handed out |
| WorkerProcess.HeldAt | tv/lib/workerprocess.py:263-273 | a message in any FIFO of a level is held by that level |
| WorkerProcess.FilterInHeld | tv/lib/workerprocess.py:263-273 | after filtering one class, a message is held exactly when it was held and, if of that class, the filter keeps it |
| WorkerProcess.CancelDropsExactly | tv/lib/workerprocess.py:340-349 | after cancelling, a level holds exactly the messages it held except mutagen and movie-data tasks for the listed paths |
| WorkerProcess.WorkerTaskQueue.constructor | tv/lib/workerprocess.py:284-300 | the queue is not quitting and holds one empty level per priority |
| WorkerProcess.WorkerTaskQueue.AddTask | tv/lib/workerprocess.py:302-306 | the task joins its class's FIFO at its priority's level |
| WorkerProcess.WorkerTaskQueue.TakeAt | tv/lib/workerprocess.py:333-334 | one level's get_next_task changes that level only |
| WorkerProcess.WorkerTaskQueue.TakeNext | tv/lib/workerprocess.py:332-338 | the loop over levels returns and leaves what TakeFirst defines |
| WorkerProcess.WorkerTaskQueue.GetNextTask | tv/lib/workerprocess.py:308-330 | a quitting queue returns None and changes nothing; otherwise the next task by priority, or a wait when nothing is queued |
| WorkerProcess.WorkerTaskQueue.FilterAt | tv/lib/workerprocess.py:348-349 | filtering one level's class changes that level only |
| WorkerProcess.WorkerTaskQueue.CancelFileOperations | tv/lib/workerprocess.py:340-349 | the levels become CancelIn of the old levels, so only the listed paths' file tasks leave |
| WorkerProcess.WorkerTaskQueue.Shutdown | tv/lib/workerprocess.py:351-355 | should_quit becomes true and the queued tasks are untouched |
| WorkerProcess.RouteOf | tv/lib/workerprocess.py:133-155 | cancel tasks run at once; movie-data tasks, and mutagen tasks when alarms work, wait for the main thread; other tasks are queued; other messages are called directly |
| WorkerProcess.MainThreadHoldsFileTasks | tv/lib/workerprocess.py:138-149 | only movie-data and mutagen tasks are kept for the main thread |
| WorkerProcess.CancelMainThreadAsWrittenFails | tv/lib/workerprocess.py:202-204 | as written, cancelling raises on any waiting main-thread task and cancels nothing, where the intended filter would drop the listed one |
| WorkerProcess.CancelMainThreadExactly | tv/lib/workerprocess.py:197-205 | as intended, exactly the listed paths' file tasks leave main_thread_tasks |
| WorkerProcess.WorkerProcessHandler.constructor | tv/lib/workerprocess.py:126-131 | an empty task queue, no main-thread tasks, and the given alarm support |
| WorkerProcess.WorkerProcessHandler.HandleCancelFileOperations | tv/lib/workerprocess.py:197-205 | both the task queue and main_thread_tasks lose the listed paths' file tasks and nothing else |
| WorkerProcess.WorkerProcessHandler.CallHandler | tv/lib/workerprocess.py:133-157 | the message goes where RouteOf says: run now, appended to main_thread_tasks, or added to the task queue |
| WorkerProcess.Dispatch | tv/lib/workerprocess.py:436-442 | an exception result goes to the errback, any other result to the callback, with the original message |
| WorkerProcess.MiroTaskQueue.constructor | tv/lib/workerprocess.py:423-425 | no task is in progress |
| WorkerProcess.MiroTaskQueue.Reset | tv/lib/workerprocess.py:427-428 | no task is in progress afterwards |
| WorkerProcess.MiroTaskQueue.AddTask | tv/lib/workerprocess.py:430-434 | the task is filed under its id with its callbacks, and sent exactly when the subprocess is running |
| WorkerProcess.MiroTaskQueue.ProcessResult | tv/lib/workerprocess.py:436-442 | a known id is popped and dispatched; an unknown id (KeyError) changes nothing |
| WorkerProcess.MiroTaskQueue.RunPendingTasks | tv/lib/workerprocess.py:444-447 | every task in progress is sent again, once each, and nothing else |
| WorkerProcess.WorkerProcessHandler.GetTaskFromQueue | tv/lib/workerprocess.py:159-184 | while the incoming queue is empty and tasks remain, pops main-thread tasks from the left and handles each; the remaining deque is the original minus the popped prefix, and the events are those of handling that prefix in order, followed by MovieDataTaskStatus(None) exactly when some popped task was not a MutagenTask |
| WorkerProcess.StepRunsOnce | tv/lib/workerprocess.py:167-178 | handling one popped task runs that task exactly once |
| WorkerProcess.DrainRunsEachOnce | tv/lib/workerprocess.py:164-178 | draining runs every popped task exactly once and in deque order |
| WorkerProcess.DrainReports | tv/lib/workerprocess.py:167-178 | a MovieDataTaskStatus with an id is sent exactly for the popped tasks that are not MutagenTasks; a task runs under the alarm exactly when it is a MutagenTask; no status with None is sent inside the loop |
| WorkerProcess.RanMovieDataIff | tv/lib/workerprocess.py:163-182 | the ran_movie_data flag ends true exactly when some popped task was not a MutagenTask |
| Subprocesses.EncodeLong | tv/lib/subprocessmanager.py:321 | struct.pack("L") yields exactly SIZEOF_LONG bytes |
| Subprocesses.DecodeLong | tv/lib/subprocessmanager.py:299 | struct.unpack("L") yields a length below 256 to the header's width |
| Subprocesses.DecodeEncodeLong | tv/lib/subprocessmanager.py:299-321 | every length that fits the header comes back from it unchanged |
| Subprocesses.EncodeDecodeLong | tv/lib/subprocessmanager.py:299-321 | every header is the encoding of the length it holds |
| Subprocesses.InPipe.constructor | tv/lib/subprocessmanager.py:266-283 | a pipe holding the bytes its writer delivers |
| Subprocesses.InPipe.Read | tv/lib/subprocessmanager.py:278 | read(n) returns a prefix of at most n unread bytes, consumes exactly it, and returns '' only at end of file |
| Subprocesses.OutPipe.constructor | tv/lib/subprocessmanager.py:315-332 | nothing written yet |
| Subprocesses.OutPipe.Write | tv/lib/subprocessmanager.py:329-330 | write appends its bytes |
| Subprocesses.ReadBytes | tv/lib/subprocessmanager.py:266-283 | the loop returns the first `length` bytes of the pipe, or all of them at end of file, and consumes exactly those |
| Subprocesses.LoadObj | tv/lib/subprocessmanager.py:285-313 | the header and the pickle are read as Load defines, including its LoadError cases, leaving Load's rest unread |
| Subprocesses.DumpObj | tv/lib/subprocessmanager.py:315-332 | a pickle whose length fits a long is written as its header and then itself; a longer one (struct.error) writes nothing |
| Subprocesses.LoadAfterDump | tv/lib/subprocessmanager.py:285-332 | what _dump_obj writes, _load_obj returns, and the bytes after it stay unread |
| Subprocesses.LoadBodyOfPayload | tv/lib/subprocessmanager.py:300-305 | a pickle of the announced size that decodes is returned and the rest stays unread |
| Subprocesses.LoadedCameFromFrame | tv/lib/subprocessmanager.py:285-313 | conversely, an object loads only from a frame of it at the head of the pipe |
| Subprocesses.LoadedShape | tv/lib/subprocessmanager.py:295-305 | a loaded object was announced by the header before it and decodes |
| Subprocesses.FrameSplit | tv/lib/subprocessmanager.py:295-305 | a pipe that starts with a header and that many bytes is one frame followed by the rest |
| Subprocesses.LoadErrors | tv/lib/subprocessmanager.py:295-313 | LoadError is raised exactly for a short header, a short pickle or a pickle that does not decode |
| Subprocesses.LoadConsumes | tv/lib/subprocessmanager.py:285-313 | loading never reads past the end, and a loaded object consumes at least a header |
| Subprocesses.ReadAllGoesOn | tv/lib/subprocessmanager.py:571-574 | after an object other than None, _read_from_pipe yields it and carries on with the rest |
| Subprocesses.StreamAdvances | tv/lib/subprocessmanager.py:571-574 | one more object moves from the pipe to what has been yielded, and the pipe shrinks |
| Subprocesses.StreamStops | tv/lib/subprocessmanager.py:571-574 | a None or a LoadError ends the stream where it stands, with the matching quit_type |
| Subprocesses.ReadAllOfFrame | tv/lib/subprocessmanager.py:559-574 | what _read_from_pipe does with a pipe that starts with one frame |
| Subprocesses.StreamRoundTrip | tv/lib/subprocessmanager.py:315-332 | objects dumped one after another and then None are yielded in order, the stream stops normally and the bytes after it stay unread |
| Subprocesses.FramesCons | tv/lib/subprocessmanager.py:315-332 | the frames of several objects are the first frame followed by the rest |
| Subprocesses.SendableTail | tv/lib/subprocessmanager.py:315-332 | a sendable sequence stays sendable without its first object |
| Subprocesses.StreamClosedEarly | tv/lib/subprocessmanager.py:295-298 | a writer that closes its end before sending None leaves the reader with every object and then a LoadError on an empty header |
| Subprocesses.QuitTypeFor | tv/lib/subprocessmanager.py:583-620 | normal end 0, read error 1, bad data 2, anything else 3, one value per outcome |
| Subprocesses.SubprocessResponder.constructor | tv/lib/subprocessmanager.py:214-218 | an empty handler queue and no idle callback pending |
| Subprocesses.SubprocessResponder.CallHandler | tv/lib/subprocessmanager.py:220-230 | the message is queued and an idle callback added only when none is pending |
| Subprocesses.SubprocessResponder.ProcessHandlerQueue | tv/lib/subprocessmanager.py:232-241 | the pending callback clears the flag and handles the whole queue in order |
| Subprocesses.RespondUntilQuit | tv/lib/subprocessmanager.py:602-620 | the thread hands the responder exactly the objects _read_from_pipe yields, in order, and records the quit_type of how the stream stopped |
| Subprocesses.Setup | tv/lib/subprocessmanager.py:683-722 | the child is set up exactly when a StartupInfo arrives first and a HandlerInfo second, and names which of them was wrong otherwise |
| Subprocesses.QuitDecision | tv/lib/subprocessmanager.py:442-491 | a quit during shutdown is ignored; an old thread is reported only with an abnormal quit_type; a normal quit after send_quit cleans up; any other quit restarts, at once or after the rest of restart_delay |
| Subprocesses.RestartsKeepTheirDistance | tv/lib/subprocessmanager.py:476-491 | a restart never happens sooner than restart_delay after the last start |
| Subprocesses.SubprocessManager.constructor | tv/lib/subprocessmanager.py:341-372 | not running, nothing started or sent, and the given restart_delay |
| Subprocesses.SubprocessManager.Start | tv/lib/subprocessmanager.py:374-379 | a no-op while running; otherwise a new subprocess runs having had only its start-up messages, and on_startup is called |
| Subprocesses.SubprocessManager.Launch | tv/lib/subprocessmanager.py:381-413 | a new subprocess and responder thread, start_time now, and StartupInfo and HandlerInfo sent first |
| Subprocesses.SubprocessManager.Cleanup | tv/lib/subprocessmanager.py:506-511 | thread and process unset and not running |
| Subprocesses.SubprocessManager.SendMessage | tv/lib/subprocessmanager.py:515-528 | the message is written exactly when running; otherwise ValueError and nothing is written |
| Subprocesses.SubprocessManager.Handle | tv/lib/subprocessmanager.py:555-557 | a message for the subprocess is forwarded exactly when running |
| Subprocesses.SubprocessManager.SendQuit | tv/lib/subprocessmanager.py:530-533 | None is sent and sent_quit set only when running |
| Subprocesses.SubprocessManager.Shutdown | tv/lib/subprocessmanager.py:415-440 | a no-op while not running; otherwise quit is requested, on_shutdown called and the process cleaned up |
| Subprocesses.SubprocessManager.Restart | tv/lib/subprocessmanager.py:493-504 | a clean restart shuts down first, an unclean one needs a process; either launches a new subprocess and calls on_restart |
| Subprocesses.SubprocessManager.OnThreadQuit | tv/lib/subprocessmanager.py:442-491 | acts as QuitDecision says: nothing, a soft failure, cleanup, an immediate restart or a restart scheduled after the remaining delay; outside a restart, sent_quit, start_time and the process count stay as they were |
| Subprocesses.RunningChildIsSetUp | tv/lib/subprocessmanager.py:381-413 | while a subprocess runs, what it was sent passes its set-up |
| ListViews.Fold | tv/lib/frontends/widgets/itemlistwidgets.py:1112-1121 | the pass over the resizing columns keeps the set of columns with a width |
| ListViews.FoldLeavesOthers | tv/lib/frontends/widgets/itemlistwidgets.py:1114-1121 | the pass leaves every column it does not visit at its width |
| ListViews.FoldRespectsMinimum | tv/lib/frontends/widgets/itemlistwidgets.py:1117-1121 | every visited column ends at or above its renderer's min_width, and a clipped one exactly at it |
| ListViews.OwedIsShare | tv/lib/frontends/widgets/itemlistwidgets.py:1110-1116 | the widths owed to the resizing columns add up to extra_each times the total weight |
| ListViews.StepCarries | tv/lib/frontends/widgets/itemlistwidgets.py:1116 | divmod(x, 1) splits the ideal extra into whole pixels and a carry in [0, 1) without losing anything |
| ListViews.FoldCarries | tv/lib/frontends/widgets/itemlistwidgets.py:1113-1121 | the pixels handed out plus the final carry equal what was owed |
| ListViews.SumUnchangedOutside | tv/lib/frontends/widgets/itemlistwidgets.py:1102 | changing a column outside the sorters leaves the allocated total alone |
| ListViews.FoldGrows | tv/lib/frontends/widgets/itemlistwidgets.py:1114-1121 | the visited columns grow by exactly what the pass reports, which without clipping is what it handed out |
| ListViews.PassFills | tv/lib/frontends/widgets/itemlistwidgets.py:1110-1123 | a pass that hands out a whole number of pixels and clips nothing grows the columns by exactly that number: the carried rounding loses no pixel |
| ListViews.PassBounds | tv/lib/frontends/widgets/itemlistwidgets.py:1114-1121 | a pass moves only the resizing columns, keeps them at or above their minimum, and clips only among them |
| ListViews.CountIgnoresOthers | tv/lib/frontends/widgets/itemlistwidgets.py:1107-1108 | counting the resizing columns ignores names outside the sorters |
| ListViews.CountIsSize | tv/lib/frontends/widgets/itemlistwidgets.py:1107-1108 | over distinct sorters the count of the resizing columns is len(resizing) |
| ListViews.OnesWeighTheirCount | tv/lib/frontends/widgets/itemlistwidgets.py:1103-1108 | the fallback weights of 1 add up to len(resizing) |
| ListViews.DistributeExtra | tv/lib/frontends/widgets/itemlistwidgets.py:1112-1121 | the for loop computes the widths and the clipped set the pass defines |
| ListViews.Weigh | tv/lib/frontends/widgets/itemlistwidgets.py:1102-1110 | the columns' own weights when they sum to something and no earlier round fell back; otherwise integer weights of 1 with extra_each the Python 2 floored quotient, handing out the available width less under len(resizing) pixels; it reports whether the 1s are in force |
| ListViews.FlooredShare | tv/lib/frontends/widgets/itemlistwidgets.py:1110 | floored division by the column count hands out a whole multiple of it, short by less than the count |
| ListViews.RoundFacts | tv/lib/frontends/widgets/itemlistwidgets.py:1101-1125 | what one round leaves: only the resizing columns move, none goes below its minimum, the clipped ones sit at it, and without clipping the width is shared out exactly |
| ListViews.Drop | tv/lib/frontends/widgets/itemlistwidgets.py:1124-1125 | deleting the clipped names keeps exactly the other weights |
| ListViews.DropShrinks | tv/lib/frontends/widgets/itemlistwidgets.py:1122-1125 | a round that clips something leaves fewer columns to resize, so the while loop ends |
| ListViews.FitRound | tv/lib/frontends/widgets/itemlistwidgets.py:1101-1125 | one round of the while loop: the widths it fits, the columns left to resize, whether the integer 1s are in force from now on, and the break when nothing was clipped; a round that breaks with real weights fills the width exactly, and any round that breaks fills it to within len(resizing) pixels |
| ListViews.FitColumns | tv/lib/frontends/widgets/itemlistwidgets.py:1101-1125 | the while loop, with the integer weights of a zero-weight fallback kept for every later round: it leaves the frozen columns alone, keeps every resizing column at or above its minimum, and either fills the available width to within len(resizing) pixels or leaves every resizing column at its minimum |
| Sorters.Keep | tv/lib/frontends/widgets/itemlistwidgets.py:912-913 | the old sorters that stay, in their order, and nothing else |
| Sorters.KeepDistinct | tv/lib/frontends/widgets/itemlistwidgets.py:912-913 | keeping some of distinct sorters leaves them distinct |
| Sorters.FreshNames | tv/lib/frontends/widgets/itemlistwidgets.py:914-915 | the names of sorts_enabled that are not yet sorters, and only those |
| Sorters.IndexOf | tv/lib/frontends/widgets/itemlistwidgets.py:914 | list.index: the first position of the name |
| Sorters.IndexOfPrefix | tv/lib/frontends/widgets/itemlistwidgets.py:914 | the first position of a name does not depend on what follows it |
| Sorters.FreshNamesInOrder | tv/lib/frontends/widgets/itemlistwidgets.py:914-915 | the new sorters are made in the order of their first place in sorts_enabled, without repeats |
| Sorters.FreshNamesHead | tv/lib/frontends/widgets/itemlistwidgets.py:914-915 | a first enabled name not yet a sorter becomes the first new sorter |
| Sorters.Resizing | tv/lib/frontends/widgets/itemlistwidgets.py:1091-1094 | the sorters that are neither NO_RESIZE nor preserved, each with its COLUMN_WIDTH_WEIGHTS weight, 0 when it has none |
| Sorters.ApplyWidths | tv/lib/frontends/widgets/itemlistwidgets.py:1127-1128 | every sorter is given its width from column_widths |
| Sorters.Clicked | tv/lib/frontends/widgets/itemlistwidgets.py:892-899 | a click on the showing sorter reverses its direction; on another sorter it asks for that sorter's default direction |
| Sorters.SecondClickReverses | tv/lib/frontends/widgets/itemlistwidgets.py:892-907 | showing a sorter in the direction a click asked for makes the next click on it ask for the other direction |
| Sorters.PopAll | tv/lib/frontends/widgets/itemlistwidgets.py:912-913 | the sorters that stay keep their order and indicators, and exactly the others are removed, once each |
| Sorters.ListView.constructor | tv/lib/frontends/widgets/itemlistwidgets.py:990-1006 | the sorters are the enabled sorts in first-appearance order, the album column first in an AlbumView; the widths are the given column_widths plus fixed widths for the NO_RESIZE sorters, and no width has been allocated yet |
| Sorters.Allocate | tv/lib/frontends/widgets/itemlistwidgets.py:1101-1128 | a sorter with no width is a KeyError; when nothing needs resizing the sorters are then given their widths up to the first without one; otherwise the widths are those of the while loop (FitColumns' guarantee, integer fallback included) and every sorter is given its new width |
| Sorters.ListView.AllocateWidths | tv/lib/frontends/widgets/itemlistwidgets.py:1070-1128 | nothing before a width is known; otherwise the preserved widths are taken, a sorter without a width raises KeyError, and the other columns fill the width as FitColumns promises, then every sorter is given its width |
| Sorters.ListView.ChangeSorters | tv/lib/frontends/widgets/itemlistwidgets.py:909-915 | the sorters become exactly the enabled ones, the old ones that stay first and the new ones in order, and exactly the dropped ones are removed |
| Sorters.ListView.DropSorters | tv/lib/frontends/widgets/itemlistwidgets.py:912-913 | every sorter not enabled is popped and removed, once each, and the others keep their order and indicators |
| Sorters.ListView.AddSorters | tv/lib/frontends/widgets/itemlistwidgets.py:914-915 | the new sorters are appended in order, with a fixed width for the NO_RESIZE ones |
| Sorters.ListView.MakeSorter | tv/lib/frontends/widgets/itemlistwidgets.py:1040-1062 | a new column with its indicator hidden; a NO_RESIZE column gets min_width, padded by COLUMN_PADDING unless NO_PAD, as its width |
| Sorters.ListView.UpdateSorts | tv/lib/frontends/widgets/itemlistwidgets.py:909-916 | the sorters become exactly the enabled ones (AlbumView puts multi-row-album first), new sorters get a hidden indicator and the others keep theirs; once a width is known, the allocation succeeds exactly when every sorter has a width after the loops (otherwise the KeyError), and on success each sorter is at or above its minimum and given its width |
| Sorters.ListView.ChangeSortIndicator | tv/lib/frontends/widgets/itemlistwidgets.py:901-907 | exactly the named sorter shows its indicator, in the given direction, and the others are hidden |
| Sorters.ListView.DoSizeAllocated | tv/lib/frontends/widgets/itemlistwidgets.py:1064-1068 | a new total width is recorded and the widths are allocated afresh; the same width again changes nothing |
| Sorters.ListView.Tooltip | tv/lib/frontends/widgets/itemlistwidgets.py:1015-1035 | the name column shows the description, when it is not empty, cut to 1000 characters; the state column shows the state text; any other column shows none |
| Sorters.Truncated | tv/lib/frontends/widgets/itemlistwidgets.py:1019-1022 | a description over 1000 characters keeps its first 994 and gets " [...]", 1000 in all; a shorter one is kept whole |
| Sorters.StateTooltip | tv/lib/frontends/widgets/itemlistwidgets.py:1027-1035 | "Downloading", then "Unplayed", then "Newly Available", each exactly when its test is the first to hold, else none |
| ItemListWidgets.SizeRequestAsWritten | tv/lib/frontends/widgets/itemlistwidgets.py:162-164 | as written, the comprehension calls each toggler's size_request without `layout`, so the method raises TypeError for every width and order |
| ItemListWidgets.TogglerSize | tv/lib/frontends/widgets/itemlistwidgets.py:100-102 | a toggler answers its width when given the layout, and raises TypeError exactly when called without it |
| ItemListWidgets.SumSizes | tv/lib/frontends/widgets/itemlistwidgets.py:163 | the comprehension raises TypeError exactly when the togglers are asked without the layout and there is at least one of them |
| ItemListWidgets.SumSizesOfTogglers | tv/lib/frontends/widgets/itemlistwidgets.py:163 | with the layout, `togglers.values()` in any order sums to the three widths |
| ItemListWidgets.SizeRequestAsWrittenIsNoWidth | tv/lib/frontends/widgets/itemlistwidgets.py:162-164 | whatever the widths and the order, the call as written never gives the intended request |
| ItemListWidgets.SizeRequest | tv/lib/frontends/widgets/itemlistwidgets.py:162-164 | as intended, the three togglers' widths added in any order, with the height left free (-1) |
| ItemListWidgets.SizeRequestCoversEach | tv/lib/frontends/widgets/itemlistwidgets.py:162-164 | the intended request is at least as wide as each toggler |
| ItemListWidgets.ViewToggler.constructor | tv/lib/frontends/widgets/itemlistwidgets.py:123-150 | the standard view is selected, and the three togglers are packed in the order standard, album, list |
| ItemListWidgets.ViewToggler.SwitchToView | tv/lib/frontends/widgets/itemlistwidgets.py:166-171 | the view becomes selected and only its toggler is pressed; the selected view again changes nothing |
| ItemListWidgets.ViewToggler.OnClicked | tv/lib/frontends/widgets/itemlistwidgets.py:173-178 | a click selects the clicked toggler's view and emits that view's signal |
| ItemListWidgets.ViewToggler.HideAlbumView | tv/lib/frontends/widgets/itemlistwidgets.py:152-155 | the album toggler leaves the box if it is there, and the others keep their order |
| ItemListWidgets.ViewToggler.ShowAlbumView | tv/lib/frontends/widgets/itemlistwidgets.py:157-160 | a missing album toggler is packed at the end; one already there changes nothing |
| ItemListWidgets.Unpacked | tv/lib/frontends/widgets/itemlistwidgets.py:155 | Box.remove: exactly the other children remain |
| ItemListWidgets.HideThenShow | tv/lib/frontends/widgets/itemlistwidgets.py:152-160 | hiding and then showing the album toggler puts it last, the others keeping their order |
| ItemListWidgets.UnpackedAppend | tv/lib/frontends/widgets/itemlistwidgets.py:155-160 | removing a toggler that was packed last undoes the packing |
| ItemListWidgets.AddedFilters | tv/lib/frontends/widgets/itemlistwidgets.py:446-465 | the buttons after add_filter calls are the old ones and the new keys that have labels |
| ItemListWidgets.Labelled | tv/lib/frontends/widgets/itemlistwidgets.py:446-452 | the keys that get a button are exactly those itemfilter labels |
| ItemListWidgets.OnlyFirstFilterEnabled | tv/lib/frontends/widgets/itemlistwidgets.py:453-457 | starting from an empty box, exactly the first key with a label has its button enabled |
| ItemListWidgets.AddOneFilter | tv/lib/frontends/widgets/itemlistwidgets.py:453-461 | a new labelled key keeps exactly the first labelled key enabled |
| ItemListWidgets.ItemFilterBox.constructor | tv/lib/frontends/widgets/itemlistwidgets.py:435-439 | no buttons |
| ItemListWidgets.ItemFilterBox.AddFilter | tv/lib/frontends/widgets/itemlistwidgets.py:446-461 | a key with a label gets a button, enabled only when it is the first, packed at the end; a key without one (KeyError) changes nothing |
| ItemListWidgets.ItemFilterBox.AddFilters | tv/lib/frontends/widgets/itemlistwidgets.py:463-465 | the loop adds each key in turn, the same as AddedFilters over the list |
| ItemListWidgets.ItemFilterBox.SetFilters | tv/lib/frontends/widgets/itemlistwidgets.py:441-444 | the same buttons, each enabled exactly when its key is in the set |
| ItemListWidgets.Candidates | tv/lib/frontends/widgets/itemlistwidgets.py:373-386 | the titles make_textbox tries: the whole title, then the title cut by 4, 5, ... characters with "..." added |
| ItemListWidgets.CandidatesShrink | tv/lib/frontends/widgets/itemlistwidgets.py:380-381 | each shortened title is shorter than the one before it |
| ItemListWidgets.FirstFit | tv/lib/frontends/widgets/itemlistwidgets.py:377-387 | a title that fits, from the candidates, or none when no candidate fits |
| ItemListWidgets.FirstFitIsFirst | tv/lib/frontends/widgets/itemlistwidgets.py:377-387 | no candidate before the one chosen fits |
| ItemListWidgets.ResumePlaybackButton.constructor | tv/lib/frontends/widgets/itemlistwidgets.py:266-287 | no title, no resume time and no width available |
| ItemListWidgets.ResumePlaybackButton.Update | tv/lib/frontends/widgets/itemlistwidgets.py:289-293 | the new title and resume time, and the size request invalidated |
| ItemListWidgets.ResumePlaybackButton.SetWidthAvailable | tv/lib/frontends/widgets/itemlistwidgets.py:316-319 | the width is recorded, and only a different width invalidates the size request |
| ItemListWidgets.ResumePlaybackButton.RequestedWidth | tv/lib/frontends/widgets/itemlistwidgets.py:321-340 | the width the text and button need, capped by the width available, and never below MIN_WIDTH 160 |
| ItemListWidgets.ResumePlaybackButton.MakeTextbox | tv/lib/frontends/widgets/itemlistwidgets.py:373-387 | the first title, whole or shortened, whose text fits, or none |
| ItemListWidgets.ShortenToFit | tv/lib/frontends/widgets/itemlistwidgets.py:377-387 | the loop returns the first candidate that fits, or none |
| ItemListWidgets.ResumeButtonHolder.constructor | tv/lib/frontends/widgets/itemlistwidgets.py:401-406 | the button is not shown and no size is requested |
| ItemListWidgets.ResumeButtonHolder.Show | tv/lib/frontends/widgets/itemlistwidgets.py:408-416 | once shown, the holder requests the button's MIN_WIDTH and both pads; showing again changes nothing |
| ItemListWidgets.ResumeButtonHolder.Hide | tv/lib/frontends/widgets/itemlistwidgets.py:418-424 | once hidden, the holder requests no space; hiding again changes nothing |
| ItemListWidgets.ResumeButtonHolder.DoSizeAllocated | tv/lib/frontends/widgets/itemlistwidgets.py:426-430 | the button is told the width inside the pads, and redrawn exactly when that width changes |
| ItemListWidgets.ItemListTitlebar.constructor | tv/lib/frontends/widgets/itemlistwidgets.py:483-523 | normal width mode, button hidden with no title, and the widths measured by calculate_width_requests |
| ItemListWidgets.ItemListTitlebar.SetSmallWidthMode | tv/lib/frontends/widgets/itemlistwidgets.py:565-574 | small width hides the button; normal width shows it when it has a title; the holder's size request follows the button (the button's minimum plus the pads when shown, nothing when hidden); without a resume button nothing changes |
| ItemListWidgets.ItemListTitlebar.DoSizeAllocated | tv/lib/frontends/widgets/itemlistwidgets.py:559-563 | the bar is in small-width mode exactly when the width is below the normal width needed, and the button is shown exactly when it has a title and the bar is not small; with the mode unchanged the button and the holder's size request stay as they were |
| ItemListWidgets.ItemListTitlebar.UpdateResumeButton | tv/lib/frontends/widgets/itemlistwidgets.py:576-586 | the button shows exactly when it has a title and the bar is not in small-width mode, the holder's request follows it, and the button is redrawn once |
| ItemListWidgets.ModeIndex | tv/lib/frontends/widgets/itemlistwidgets.py:1383-1389 | the toggle state of 'off', 'new' and 'all', and no state for any other string |
| ItemListWidgets.ModeRoundTrip | tv/lib/frontends/widgets/itemlistwidgets.py:1361-1389 | each toggle state's mode name sets that state again |
| ItemListWidgets.NextState | tv/lib/frontends/widgets/itemlistwidgets.py:1417-1418 | a click moves to a different one of the three states |
| ItemListWidgets.ThreeClicksCycle | tv/lib/frontends/widgets/itemlistwidgets.py:1417-1419 | three clicks bring the button back to where it was, and two do not |
| ItemListWidgets.FeedToolbar.constructor | tv/lib/frontends/widgets/itemlistwidgets.py:1349-1381 | toggle state 0 and no report pending |
| ItemListWidgets.FeedToolbar.SetAutodownloadMode | tv/lib/frontends/widgets/itemlistwidgets.py:1383-1389 | a known mode sets its toggle state; any other string leaves the state alone |
| ItemListWidgets.FeedToolbar.OnAutodownloadChanged | tv/lib/frontends/widgets/itemlistwidgets.py:1412-1424 | a pending report is cancelled, the button moves to the next state, and that state's mode is scheduled for report |
| ItemListWidgets.FeedToolbar.OnTimeout | tv/lib/frontends/widgets/itemlistwidgets.py:1426-1427 | the scheduled mode is emitted as auto-download-changed |
| ItemListWidgets.ItemDetailsExpanderButton.constructor | tv/lib/frontends/widgets/itemlistwidgets.py:1785-1792 | the mode starts as 'expand', so a click expands |
| ItemListWidgets.ItemDetailsExpanderButton.SetMode | tv/lib/frontends/widgets/itemlistwidgets.py:1794-1805 | 'expand' and 'contract' are taken, and click_should_expand then holds exactly for 'expand'; any other mode is a ValueError and changes nothing, click_should_expand included |
| ItemListWidgets.LabelWidth | tv/lib/frontends/widgets/itemlistwidgets.py:2255-2268 | the width less the image (190) and the padding (25 and 30), or 0 when that is below 1 |
| ItemListWidgets.ItemDetailsWidget.constructor | tv/lib/frontends/widgets/itemlistwidgets.py:2067-2101 | no width allocated and no label width set |
| ItemListWidgets.ItemDetailsWidget.DoSizeAllocated | tv/lib/frontends/widgets/itemlistwidgets.py:2249-2253 | only a new width resizes the labels, to LabelWidth of it |
| Browsers.Layout | tv/lib/frontends/widgets/browser.py:84-100 | the download icon is packed first exactly when it is shown; the throbber is packed, last and padded by the icon's width, exactly when it is shown and the width left after the icon holds it and that padding |
| Browsers.BrowserLoadingImage.constructor | tv/lib/frontends/widgets/browser.py:59-66 | nothing shown, no width seen yet, no children, and a size request of 62 by 37 |
| Browsers.BrowserLoadingImage.Redraw | tv/lib/frontends/widgets/browser.py:84-100 | before any size allocation nothing happens; afterwards the children are repacked as Layout says |
| Browsers.BrowserLoadingImage.DoSizeAllocated | tv/lib/frontends/widgets/browser.py:75-78 | the width is recorded, and only a different width redraws |
| Browsers.BrowserLoadingImage.SetThrobber | tv/lib/frontends/widgets/browser.py:102-105 | the flag is set, and only a change redraws, once a width is known |
| Browsers.BrowserLoadingImage.SetDownload | tv/lib/frontends/widgets/browser.py:107-110 | the flag is set, and only a change redraws, once a width is known |
| Browsers.Classify | tv/lib/frontends/widgets/browser.py:231-260 | subscribe links first, then possible RSS URLs, then allowed file names in the URL's path, then magnet URIs, each claimed exactly when no earlier test holds |
| Browsers.LoadedUnlessClaimed | tv/lib/frontends/widgets/browser.py:231-260 | the browser loads a URL exactly when none of the four tests holds |
| Browsers.MessageFor | tv/lib/frontends/widgets/browser.py:232-258 | the message keeps the URL: SubscriptionLinkClicked for subscribe links, otherwise DownloadURL without metadata |
| Browsers.Browser.constructor | tv/lib/frontends/widgets/browser.py:202-206 | an empty seen_cache and nothing navigated or sent |
| Browsers.Browser.HandleUnknownUrl | tv/lib/frontends/widgets/browser.py:208-210 | the URL goes into seen_cache and the browser navigates to it |
| Browsers.Browser.Intercept | tv/lib/frontends/widgets/browser.py:232-258 | one download-started signal and one message to the backend |
| Browsers.Browser.ShouldLoadUrl | tv/lib/frontends/widgets/browser.py:216-260 | a URL in seen_cache is loaded once and leaves the cache; any other URL is loaded exactly when Classify says so, and otherwise its message is sent with one download-started signal |
| Browsers.Browser.ShouldLoadMimetype | tv/lib/frontends/widgets/browser.py:262-275 | an allowed mimetype is downloaded with that mimetype as metadata and not loaded; any other mimetype defers to should_load_url, with its bypass, its download count and its messages |
| Browsers.Browser.DoDownloadFinished | tv/lib/frontends/widgets/browser.py:283-286 | a finished download is sent to the backend as DownloadURL with one download-started signal |
| Browsers.UnknownUrlBypassesOnce | tv/lib/frontends/widgets/browser.py:208-229 | a URL handed back as unknown is loaded the first time without a check, and the next time goes through the checks again |

## Left out

**I/O, time and collaborators**

- Threads, locks, `threading.Condition`, `Queue.Queue`, `Popen`, kill/join, `eventloop.add_idle`/`add_timeout` and the clock are left out.
  - Every operation is one sequential step.
  - The current time is an explicit `now` parameter.
  - A scheduled idle callback or timeout is a recorded flag or event.
- Pickle contents are opaque bytes. Whether `pickle.loads` accepts a payload is a `decodes` parameter.
- The native width of the unsigned-long header is a parameter (4 or 8 bytes, by platform). Its byte order is taken as little-endian. `struct` uses the machine's native order, so on a big-endian machine the header bytes come reversed.
- An `IOError` from a pipe read is not produced by the pipe model. `QUIT_READ_ERROR` therefore appears only through the mapping from a thread's outcome to its quit type.
- Logging, gettext and `to_uni` are left out.
  - `AutoLoggingStream` hands its lines to a recorded log.
  - Translated strings are the untranslated ones.
- These collaborators are parameters of the `Browser`:
  - `urlparse`;
  - the filetype tests (`is_allowed_filename`, `is_allowed_mimetype`, `is_download_mimetype`, `is_maybe_rss`);
  - the subscription-link test.
- `Cache.create_new_value` is subclass code. What it returns on a miss is the `created` parameter of `Get`, so each call may produce a different value.
- The browser's `unknown_callback` and the `guide_info` lookup are left out. The download-finished callback is recorded rather than called.
- `widgetconst` is not part of this model.
  - Column weights are reals.
  - The NO_RESIZE set, renderer minimum widths and `width_for_columns` are parameters of a `Columns` value.
- HTML stripping, text measuring and drawing are left out.
  - The tooltip's description is taken as already stripped.
  - Measured text widths and "does this text fit" tests are parameters.
  - Packing a child into the loading indicator is a recorded value.
- The title-bar buttons' `MultiStateTitlebarButton` internals are left out. Only the state each method sets is kept.
- The feed toolbar's auto-download timeout is a pending value plus a count of cancelled timeouts. The delay itself is not modelled.

**Scope choices**

- Only the sort classes that the sort keys of itemlist.py rely on are modelled: `StatusSort`, `StatusCircleSort` and `MultiRowAlbumSort`.
  - The other `ItemSort` subclasses are one-line attribute lookups and are left out.
  - The album sort's key tuples are written out with Python's tuple order.
- The other titlebars and toolbars of itemlistwidgets.py are left out, as are `BrowserToolbar` and `BrowserNav` of browser.py. They are widget wiring with no decision logic.
- The `handle_*_task` handlers (moviedata, filetags, feedparser) and `handle_worker_startup_info`'s thread start-up are left out.
  - Routing and draining record which handler runs on which message instead of running it.
  - Whether the incoming queue is empty is an answer sequence (`emptyFor`).
- WorkerProcessHandler.GetTaskFromQueue: the final blocking `queue.get()` is left to the caller.
- A Python 2 dict iterates in hash order, which the source does not control. Where a loop walks a dict, the model fixes one order: insertion order, or the sorter order where the code walks `self.sorters`. `ViewToggler.size_request` walks `togglers.values()` and is instead stated for every order of the three togglers.
- In `SorterOwner.update_sorts` the dict pops are applied together after the `remove_sorter` loop. The final state is the same.
- `ResumePlaybackButton` takes a missing resume time as 0.
- `ItemListTitlebar.calculate_width_requests` measures its children. The two measured widths are constructor parameters.
- WorkerTaskQueue.GetNextTask: it returns `Wait` when every queue is empty, where the thread would block on the condition and try again.
- ListViews.FitColumns: the total is stated to within |resizing| pixels rather than exactly. When the weights sum to zero the source falls back to integer weights of 1, which stay in force for every later round. Python 2 floor division of `extra_each` then loses up to one pixel per column.
- Sorters.Allocate: this inherits FitColumns' bound of |resizing| pixels.
- Sorters.ListView.AllocateWidths: this inherits FitColumns' bound of |resizing| pixels.
- WorkerProcess.WorkerProcessHandler.CallHandler: for a `CancelFileOperations` message it states the intended main-thread filtering (see Findings). As written, a non-empty `main_thread_tasks` raises `AttributeError`. `handle_task` catches it and sends it back as the task's result. By then the task queue has been cancelled, and the main-thread tasks stay as they were.
- UtilEnclosure.ParseSize: only the ASCII digits 0-9 count as digits. `unicode.isdigit` also accepts other Unicode digits, which `int` converts or, for superscripts and the like, rejects with `ValueError`; neither case is modelled.
- ItemSorts.FeedKey: the feed name is lower-cased in ASCII only. The full Unicode case mapping of `unicode.lower` is not modelled.
- Browsers.Browser.ShouldDownloadUrl: `should_download_url` only asks `filetypes.is_download_mimetype`, which is the Browser's `isDownloadMimetype` parameter. Nothing more is stated about it.
- A byte string written to `AutoLoggingStream` is a string of characters below 256.
- WorkerProcess.WorkerProcessHandler.HandleCancelFileOperations: it models the evidently intended filtering of the main-thread tasks (see Findings), not the `AttributeError` the code as written raises.
- ItemLists.Apply: the table model (`InfoListModel`) is not part of this model, so three of its behaviours are chosen here. `update_infos` of an id it does not hold inserts the info, `remove_ids` of an id it does not hold ignores it, and `add_infos` of an id it holds overwrites the info. The same choice for `remove_ids` applies in RemoveItems.
- Subprocesses.SubprocessResponder.ProcessHandlerQueue: it is modelled as the idle callback, so it requires one to be pending. `WorkerProcessResponder.on_shutdown` (workerprocess.py:394-397) also calls it directly; that call is outside this model.
- Sorters.ListView.UpdateSorts: it states the KeyError outcome as "`ok` exactly when every sorter has a width after the two loops", and on success each sorter's minimum and applied width. It does not restate, in terms of the state before the call, two further facts. On the KeyError, AllocateWidths leaves the widths as the loops left them. On success, the non-resized columns keep those widths and the total comes within |resizing| pixels of the available width. Both are stated by the ChangeSorters and AllocateWidths rows, one step at a time.
- Sorters.ListView.AllocateWidths: `preserving` is keyed by column name. The source's `preserving_by_label` is keyed by header label and goes through `_column_by_label` (itemlistwidgets.py:1084-1085), where an unknown label raises `KeyError`. That lookup and its error are not modelled.
- UtilText.AsciiLower: it models `str.translate` on a byte string only. Under Python 2, `unicode.translate` with the 256-character `LOWER_TRANSLATE` string raises `TypeError`, and that path is not modelled.

## Findings

| source | as written | input that shows it | evidently intended | confidence | as-written member | corrected member |
|---|---|---|---|---|---|---|
| tv/lib/util.py:968-984 | `entity_replace` decodes `&amp;` before `&lt;` and `&gt;`, so a decoded ampersand can start a second entity | `"&amp;lt;"` (the escape of `"&lt;"`) becomes `"<"` instead of `"&lt;"` | decode the two ampersand entities (`&#38;`, `&amp;`) after all the others, so that entity replacement undoes `escape` on every text | not executed | UtilText.EntityReplaceDecodesTwice | UtilText.EntityReplaceAmpLastUndoesEscape |
| tv/lib/util.py:1096-1113 | `shrink_size` keeps `size - size // 2` entries; for a size of 1 that is 1, so nothing is dropped | `Cache(1)`: after two `set` calls with different keys it holds 2 entries | a full cache drops at least one entry, so its length never exceeds `size` | not executed | UtilCache.SizeOneCacheGrows | UtilCache.EvictingThenAddBounded |
| tv/lib/workerprocess.py:202-204 | `handle_cancel_file_operations` reads `t.source_path` from the `(method, msg)` tuples of `main_thread_tasks` | any pending main-thread task, e.g. a MovieDataProgramTask for `"a.avi"`, raises `AttributeError` when a cancel arrives | keep exactly the main-thread tasks whose message's source path is not cancelled | not executed | WorkerProcess.CancelMainThreadAsWrittenFails | WorkerProcess.CancelMainThreadExactly |
| tv/lib/frontends/widgets/itemlistwidgets.py:162-164 | `ViewToggler.size_request` builds its sum from `w.size_request()` for each toggler, but `TogglerButton.size_request` (line 100) takes a `layout` argument; the leaked `w` of line 164 would be returned in place of the sum even if the call succeeded | any three togglers, in any order: the first call raises `TypeError`, so no size request is ever answered | ask each toggler with the layout and return `(width, -1)` with the summed width | not executed | ItemListWidgets.SizeRequestAsWrittenIsNoWidth | ItemListWidgets.SizeRequest |
