// The status sorts and the album view's three-mode sorter of itemlist.py,
// with Python's tuple ordering written out.

module ItemSorts {
  import opened Base
  import UtilText

  /**
   * The fields of an ItemInfo that these sort keys read. A string field that
   * Python may hold as None or '' (both false) is the empty string here.
   */
  datatype Info = Info(
    id: int,
    state: string,
    downloaded: bool,
    videoWatched: bool,
    itemViewed: bool,
    expirationDate: Option<int>,
    albumSortKey: string,
    track: int,
    artistSortKey: string,
    feedUrl: string,
    feedName: string,
    releaseDate: int,
    show: string)

  predicate Downloading(info: Info)
  {
    info.state == "downloading"
  }

  predicate DownloadedUnwatched(info: Info)
  {
    info.downloaded && !info.videoWatched
  }

  // ------------------------------------------------------------ orderings

  /** Python's `<` on tuples of integers: lexicographic, a proper prefix first. */
  predicate LexLess(a: seq<int>, b: seq<int>)
  {
    if a == [] then b != []
    else if b == [] then false
    else a[0] < b[0] || (a[0] == b[0] && LexLess(a[1..], b[1..]))
  }

  /** Python's `<` on strings: lexicographic by code point. */
  predicate StrLess(a: string, b: string)
  {
    if a == [] then b != []
    else if b == [] then false
    else a[0] < b[0] || (a[0] == b[0] && StrLess(a[1..], b[1..]))
  }

  /** Tuple order is a strict order: never both ways round. */
  lemma {:induction false} LexLessAsymmetric(a: seq<int>, b: seq<int>)
    ensures !(LexLess(a, b) && LexLess(b, a))
    ensures !LexLess(a, a)
    decreases |a|
  {
    if a != [] && b != [] {
      LexLessAsymmetric(a[1..], b[1..]);
    }
    if a != [] {
      LexLessAsymmetric(a[1..], a[1..]);
    }
  }

  /** String order is a strict order: never both ways round. */
  lemma {:induction false} StrLessAsymmetric(a: string, b: string)
    ensures !(StrLess(a, b) && StrLess(b, a))
    ensures !StrLess(a, a)
    decreases |a|
  {
    if a != [] && b != [] {
      StrLessAsymmetric(a[1..], b[1..]);
    }
    if a != [] {
      StrLessAsymmetric(a[1..], a[1..]);
    }
  }

  // ------------------------------------------------------------ status sorts

  /**
   * StatusSort.sort_key: (2,) downloading, (3,) downloaded but unwatched,
   * (4, expiration date) expiring, (0,) new, (1,) anything else; each test
   * applies only when the earlier ones fail.
   */
  function StatusKey(info: Info): (k: seq<int>)
    ensures 1 <= |k| <= 2 && 0 <= k[0] <= 4
    ensures k[0] == 2 <==> Downloading(info)
    ensures k[0] == 3 <==> !Downloading(info) && DownloadedUnwatched(info)
    ensures k[0] == 4 <==>
      !Downloading(info) && !DownloadedUnwatched(info) && info.expirationDate.Some?
    ensures |k| == 2 <==> k[0] == 4
    ensures k[0] == 4 ==> k[1] == info.expirationDate.value
    ensures k == [0] <==>
      !Downloading(info) && !DownloadedUnwatched(info) && info.expirationDate.None? && !info.itemViewed
    ensures k == [1] <==>
      !Downloading(info) && !DownloadedUnwatched(info) && info.expirationDate.None? && info.itemViewed
  {
    if Downloading(info) then [2]
    else if DownloadedUnwatched(info) then [3]
    else if info.expirationDate.Some? then [4, info.expirationDate.value]
    else if !info.itemViewed then [0]
    else [1]
  }

  /** StatusCircleSort.sort_key: 1 downloading, 2 unwatched, 0 new and not expiring, 3 otherwise. */
  function StatusCircleKey(info: Info): (k: int)
    ensures 0 <= k <= 3
    ensures k == 1 <==> Downloading(info)
    ensures k == 2 <==> !Downloading(info) && DownloadedUnwatched(info)
    ensures k == 0 <==>
      !Downloading(info) && !DownloadedUnwatched(info) && !info.itemViewed && info.expirationDate.None?
    ensures k == 3 <==>
      !Downloading(info) && !DownloadedUnwatched(info) && (info.itemViewed || info.expirationDate.Some?)
  {
    if Downloading(info) then 1
    else if DownloadedUnwatched(info) then 2
    else if !info.itemViewed && info.expirationDate.None? then 0
    else 3
  }

  /** How the circle sort numbers each StatusSort class: it has no class of its own for expiring items. */
  function CircleClass(statusClass: int): int
  {
    match statusClass
    case 0 => 0
    case 2 => 1
    case 3 => 2
    case _ => 3
  }

  /** The circle sort is StatusSort with its classes renumbered and "expiring" merged into "other". */
  lemma CircleIsStatusRenumbered(info: Info)
    ensures StatusCircleKey(info) == CircleClass(StatusKey(info)[0])
    ensures StatusKey(info)[0] == 4 ==> StatusCircleKey(info) == 3
  {
  }

  /** In an ascending status sort a lower class always comes first. */
  lemma StatusClassOrder(a: Info, b: Info)
    requires StatusKey(a)[0] < StatusKey(b)[0]
    ensures LexLess(StatusKey(a), StatusKey(b))
    ensures !LexLess(StatusKey(b), StatusKey(a))
  {
    LexLessAsymmetric(StatusKey(a), StatusKey(b));
  }

  /** Expiring items sort among themselves by expiration date. */
  lemma ExpiringByDate(a: Info, b: Info)
    requires StatusKey(a)[0] == 4 && StatusKey(b)[0] == 4
    ensures LexLess(StatusKey(a), StatusKey(b)) <==>
      a.expirationDate.value < b.expirationDate.value
  {
    var da, db := a.expirationDate.value, b.expirationDate.value;
    assert StatusKey(a) == [4, da] && StatusKey(b) == [4, db];
    assert [4, da][1..] == [da] && [4, db][1..] == [db];
    assert [da][1..] == [] && [db][1..] == [];
    assert LexLess([da], [db]) <==> da < db;
  }

  /** Items of one class other than "expiring" tie under StatusSort. */
  lemma StatusClassTies(a: Info, b: Info)
    requires StatusKey(a)[0] == StatusKey(b)[0] != 4
    ensures StatusKey(a) == StatusKey(b)
  {
  }

  // ------------------------------------------------------------ MultiRowAlbumSort

  datatype Mode = Standard | Feed | Video

  /** The key of one row, one shape per mode. */
  datatype RowKey =
    | AlbumRow(album: string, track: int, artist: string)
    | FeedRow(watchedFolder: int, feedName: string, release: int)
    | VideoRow(showName: string, release: int)

  const WatchedFolderPrefix: string := "dtv:directoryfeed:"

  /** The mode named by a string, or None where switch_mode raises ValueError. */
  function ParseMode(name: string): (m: Option<Mode>)
    ensures m.Some? <==> name == "standard" || name == "feed" || name == "video"
    ensures m == Some(Standard) <==> name == "standard"
    ensures m == Some(Feed) <==> name == "feed"
    ensures m == Some(Video) <==> name == "video"
  {
    if name == "standard" then Some(Standard)
    else if name == "feed" then Some(Feed)
    else if name == "video" then Some(Video)
    else None
  }

  predicate IsWatchedFolder(info: Info)
  {
    StartsWith(info.feedUrl, WatchedFolderPrefix)
  }

  /** sort_key_standard: the same key as AlbumSort, album first, then track, then artist. */
  function StandardKey(info: Info): (k: RowKey)
    ensures k.AlbumRow? && k.album == info.albumSortKey && k.track == info.track && k.artist == info.artistSortKey
  {
    AlbumRow(info.albumSortKey, info.track, info.artistSortKey)
  }

  /**
   * sort_key_feed: watched folders get 1 (or -1 when the sort is reversed),
   * other feeds 0, then the lower-cased feed name and the release date.
   */
  function FeedKey(info: Info, reverse: bool): (k: RowKey)
    ensures k.FeedRow? && k.release == info.releaseDate
    ensures k.feedName == UtilText.AsciiLower(info.feedName)
    ensures k.watchedFolder != 0 <==> IsWatchedFolder(info)
    ensures k.watchedFolder == 0 || k.watchedFolder == (if reverse then -1 else 1)
  {
    var watched := if IsWatchedFolder(info) then 1 else 0;
    FeedRow(if reverse then -watched else watched, UtilText.AsciiLower(info.feedName), info.releaseDate)
  }

  /** sort_key_video: the show, else the feed name, else '', then the release date. */
  function VideoKey(info: Info): (k: RowKey)
    ensures k.VideoRow? && k.release == info.releaseDate
    ensures info.show != "" ==> k.showName == info.show
    ensures info.show == "" ==> k.showName == info.feedName
  {
    VideoRow(if info.show != "" then info.show else info.feedName, info.releaseDate)
  }

  /** Python's `<` on two feed-mode keys. */
  predicate FeedRowLess(a: RowKey, b: RowKey)
    requires a.FeedRow? && b.FeedRow?
  {
    a.watchedFolder < b.watchedFolder ||
    (a.watchedFolder == b.watchedFolder &&
      (StrLess(a.feedName, b.feedName) ||
       (a.feedName == b.feedName && a.release < b.release)))
  }

  /** Where the sorted list puts `a` ahead of `b`: ascending keys, or descending when reversed. */
  predicate FeedComesFirst(a: Info, b: Info, reverse: bool)
  {
    if reverse then FeedRowLess(FeedKey(b, reverse), FeedKey(a, reverse))
    else FeedRowLess(FeedKey(a, reverse), FeedKey(b, reverse))
  }

  /** Watched folders stay at the bottom whichever way the feed view is sorted. */
  lemma WatchedFoldersLast(a: Info, b: Info, reverse: bool)
    requires IsWatchedFolder(a) && !IsWatchedFolder(b)
    ensures FeedComesFirst(b, a, reverse)
    ensures !FeedComesFirst(a, b, reverse)
  {
  }

  /** Among feeds of one kind, reversing the sort reverses the order of the names. */
  lemma FeedNamesFollowDirection(a: Info, b: Info, reverse: bool)
    requires IsWatchedFolder(a) == IsWatchedFolder(b)
    requires StrLess(UtilText.AsciiLower(a.feedName), UtilText.AsciiLower(b.feedName))
    ensures FeedComesFirst(a, b, reverse) <==> !reverse
  {
    StrLessAsymmetric(UtilText.AsciiLower(a.feedName), UtilText.AsciiLower(b.feedName));
  }

  /** MultiRowAlbumSort: one sorter whose key follows the album renderer's mode. */
  class MultiRowAlbumSort {
    /** ItemSort.reverse: the sort is descending. */
    const reverse: bool
    var mode: Mode

    /** MultiRowAlbumSort(ascending): starts in standard mode. */
    constructor(ascending: bool)
      ensures reverse == !ascending && mode == Standard
    {
      reverse := !ascending;
      mode := Standard;
    }

    /** switch_mode: ValueError (false), leaving the mode alone, for an unknown name. */
    method SwitchMode(newMode: string) returns (ok: bool)
      modifies this`mode
      ensures ok <==> ParseMode(newMode).Some?
      ensures ok ==> mode == ParseMode(newMode).value
      ensures !ok ==> mode == old(mode)
    {
      var m := ParseMode(newMode);
      if m.None? {
        return false;
      }
      mode := m.value;
      ok := true;
    }

    /** The sort_key the current mode selects. */
    function SortKey(info: Info): (k: RowKey)
      reads this
      ensures mode == Standard ==> k == StandardKey(info)
      ensures mode == Feed ==> k == FeedKey(info, reverse)
      ensures mode == Video ==> k == VideoKey(info)
    {
      match mode
      case Standard => StandardKey(info)
      case Feed => FeedKey(info, reverse)
      case Video => VideoKey(info)
    }
  }
}
