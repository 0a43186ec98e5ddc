/**
 * The embedded guide browser: the loading indicator in its toolbar, which
 * shares its space between the "download started" icon and the throbber,
 * and the policy that decides whether a URL the browser is about to open
 * is loaded in place or handed to the backend as a download or a
 * subscription.
 */
module Browsers {
  import opened Base
  import UtilUrl

  // ---------------------------------------------------------------------
  // BrowserLoadingImage
  // ---------------------------------------------------------------------

  const ThrobberWidth := 55
  const DownloadWidth := 62

  /** The pixels the download icon takes away, on its own side and again as the throbber's right padding. */
  function Reserved(download: bool): int
  {
    if download then DownloadWidth else 0
  }

  /** A child of the indicator box, in packing order. */
  datatype Packed = DownloadIcon | Throbber(rightPad: int)

  predicate HasThrobber(children: seq<Packed>)
  {
    exists i :: 0 <= i < |children| && children[i].Throbber?
  }

  /**
   * What one redraw packs into a box `width` pixels wide: the download icon
   * first when it is shown, then the throbber when it is shown and there is
   * room for it beside the icon and its padding.
   */
  function Layout(width: int, throbber: bool, download: bool): (r: seq<Packed>)
    ensures download <==> |r| > 0 && r[0] == DownloadIcon
    ensures HasThrobber(r) <==> throbber && width >= ThrobberWidth + 2 * Reserved(download)
    ensures |r| == (if download then 1 else 0) + (if HasThrobber(r) then 1 else 0)
    ensures forall i :: 0 <= i < |r| && r[i].Throbber? ==> i == |r| - 1 && r[i].rightPad == Reserved(download)
  {
    var icon := if download then [DownloadIcon] else [];
    var available := width - Reserved(download);
    if throbber && available >= ThrobberWidth + Reserved(download) then
      assert (icon + [Throbber(Reserved(download))])[|icon|].Throbber?;
      icon + [Throbber(Reserved(download))]
    else
      icon
  }

  class BrowserLoadingImage {
    /** The fixed size request of the box. */
    const sizeRequest: (int, int)
    /** The last allocated width; None until the first size allocation. */
    var width: Option<int>
    var throbberShown: bool
    var downloadShown: bool
    var children: seq<Packed>
    /** How many times the box was cleared and repacked (each one builds a fresh throbber). */
    var redraws: nat

    /** The children always reflect the last width and flags, and there are none before a width is known. */
    predicate Valid()
      reads this
    {
      children == (if width.Some? then Layout(width.value, throbberShown, downloadShown) else [])
    }

    constructor()
      ensures Valid()
      ensures sizeRequest == (62, 37)
      ensures width.None? && !throbberShown && !downloadShown && children == [] && redraws == 0
    {
      sizeRequest := (62, 37);
      width := None;
      throbberShown := false;
      downloadShown := false;
      children := [];
      redraws := 0;
    }

    /** Repacks the box from the current width and flags; does nothing before a width is known. */
    method Redraw()
      modifies this`children, this`redraws
      ensures width.None? ==> children == old(children) && redraws == old(redraws)
      ensures width.Some? ==> children == Layout(width.value, throbberShown, downloadShown) && redraws == old(redraws) + 1
    {
      if width.None? {
        return;
      }
      var available := width.value;
      var rightPadding := 0;
      children := [];
      if downloadShown {
        children := children + [DownloadIcon];
        available := available - DownloadWidth;
        rightPadding := DownloadWidth;
      }
      if throbberShown && available >= ThrobberWidth + rightPadding {
        children := children + [Throbber(rightPadding)];
      }
      redraws := redraws + 1;
    }

    /** A new width triggers a redraw; the same width again does not. */
    method DoSizeAllocated(newWidth: int)
      requires Valid()
      modifies this`width, this`children, this`redraws
      ensures Valid()
      ensures width == Some(newWidth)
      ensures redraws == old(redraws) + (if old(width) == Some(newWidth) then 0 else 1)
    {
      if width != Some(newWidth) {
        width := Some(newWidth);
        Redraw();
      }
    }

    /** Shows or hides the throbber, redrawing only when the flag changes and a width is known. */
    method SetThrobber(value: bool)
      requires Valid()
      modifies this`throbberShown, this`children, this`redraws
      ensures Valid()
      ensures throbberShown == value
      ensures redraws == old(redraws) + (if value != old(throbberShown) && width.Some? then 1 else 0)
    {
      if value != throbberShown {
        throbberShown := value;
        Redraw();
      }
    }

    /** Shows or hides the download icon, redrawing only when the flag changes and a width is known. */
    method SetDownload(value: bool)
      requires Valid()
      modifies this`downloadShown, this`children, this`redraws
      ensures Valid()
      ensures downloadShown == value
      ensures redraws == old(redraws) + (if value != old(downloadShown) && width.Some? then 1 else 0)
    {
      if value != downloadShown {
        downloadShown := value;
        Redraw();
      }
    }
  }

  // ---------------------------------------------------------------------
  // Browser: which URLs are loaded in place
  // ---------------------------------------------------------------------

  /** The messages the browser sends to the backend. */
  datatype Message =
    | SubscriptionLinkClicked(url: string)
    | DownloadUrl(url: string, mimeType: Option<string>)

  /**
   * The filetype and subscription tests the policy consults, and the path
   * component that URL parsing extracts; all are outside this model.
   */
  datatype Classifier = Classifier(
    isSubscribeLink: string -> bool,
    isMaybeRssUrl: string -> bool,
    isAllowedFilename: string -> bool,
    isAllowedMimetype: string -> bool,
    isDownloadMimetype: string -> bool,
    urlPath: string -> string)

  /** What the policy does with a URL that is not in the bypass cache. */
  datatype Verdict = Load | Subscribe | DownloadFeed | DownloadFile | DownloadMagnet

  /**
   * The ordered chain of tests: a subscribe link, then a URL that may be a
   * feed, then a URL whose path names an allowed file, then a magnet link;
   * the first test that passes decides.
   */
  function Classify(c: Classifier, url: string): (v: Verdict)
    ensures v == Subscribe <==> c.isSubscribeLink(url)
    ensures v == DownloadFeed <==> !c.isSubscribeLink(url) && c.isMaybeRssUrl(url)
    ensures v == DownloadFile <==>
      !c.isSubscribeLink(url) && !c.isMaybeRssUrl(url) && c.isAllowedFilename(c.urlPath(url))
    ensures v == DownloadMagnet <==>
      !c.isSubscribeLink(url) && !c.isMaybeRssUrl(url) && !c.isAllowedFilename(c.urlPath(url)) &&
      UtilUrl.IsMagnetUri(url)
  {
    if c.isSubscribeLink(url) then Subscribe
    else if c.isMaybeRssUrl(url) then DownloadFeed
    else if c.isAllowedFilename(c.urlPath(url)) then DownloadFile
    else if UtilUrl.IsMagnetUri(url) then DownloadMagnet
    else Load
  }

  /** A URL is loaded in place exactly when none of the four tests claims it. */
  lemma LoadedUnlessClaimed(c: Classifier, url: string)
    ensures Classify(c, url) == Load <==>
      !c.isSubscribeLink(url) && !c.isMaybeRssUrl(url) && !c.isAllowedFilename(c.urlPath(url)) &&
      !(StartsWith(url, "magnet:") && exists q :: UtilUrl.HashStart(url, q))
  {
  }

  /** The message sent for a URL that is not loaded in place. */
  function MessageFor(v: Verdict, url: string): (m: Message)
    requires v != Load
    ensures m.url == url
    ensures m.SubscriptionLinkClicked? <==> v == Subscribe
    ensures m.DownloadUrl? ==> m.mimeType.None?
  {
    if v == Subscribe then SubscriptionLinkClicked(url) else DownloadUrl(url, None)
  }

  class Browser {
    const classifier: Classifier
    /** URLs the browser was told to open itself; each one skips the policy once. */
    var seenCache: set<string>
    /** URLs navigated to, oldest first. */
    var navigated: seq<string>
    /** How many times 'download-started' was emitted. */
    var downloadsStarted: nat
    /** Messages sent to the backend, oldest first. */
    var sent: seq<Message>

    constructor(classifier: Classifier)
      ensures this.classifier == classifier
      ensures seenCache == {} && navigated == [] && downloadsStarted == 0 && sent == []
    {
      this.classifier := classifier;
      seenCache := {};
      navigated := [];
      downloadsStarted := 0;
      sent := [];
    }

    /** Marks the URL to be loaded without the policy and navigates to it. */
    method HandleUnknownUrl(url: string)
      modifies this`seenCache, this`navigated
      ensures seenCache == old(seenCache) + {url}
      ensures navigated == old(navigated) + [url]
    {
      seenCache := seenCache + {url};
      navigated := navigated + [url];
    }

    /** Hands a URL to the backend: emits 'download-started' and sends the message. */
    method Intercept(m: Message)
      modifies this`downloadsStarted, this`sent
      ensures downloadsStarted == old(downloadsStarted) + 1
      ensures sent == old(sent) + [m]
    {
      downloadsStarted := downloadsStarted + 1;
      sent := sent + [m];
    }

    /**
     * Whether the browser loads `url` itself. A URL in the bypass cache is
     * loaded and leaves the cache; any other URL goes through the ordered
     * chain, and a URL the chain claims is sent to the backend instead.
     */
    method ShouldLoadUrl(url: string) returns (load: bool)
      modifies this`seenCache, this`downloadsStarted, this`sent
      ensures url in old(seenCache) ==>
        load && seenCache == old(seenCache) - {url} &&
        downloadsStarted == old(downloadsStarted) && sent == old(sent)
      ensures url !in old(seenCache) ==>
        seenCache == old(seenCache) &&
        (load <==> Classify(classifier, url) == Load) &&
        (load ==> downloadsStarted == old(downloadsStarted) && sent == old(sent)) &&
        (!load ==> downloadsStarted == old(downloadsStarted) + 1 &&
                   sent == old(sent) + [MessageFor(Classify(classifier, url), url)])
    {
      if url in seenCache {
        seenCache := seenCache - {url};
        return true;
      }
      if classifier.isSubscribeLink(url) {
        Intercept(SubscriptionLinkClicked(url));
        return false;
      }
      if classifier.isMaybeRssUrl(url) {
        Intercept(DownloadUrl(url, None));
        return false;
      }
      if classifier.isAllowedFilename(classifier.urlPath(url)) {
        Intercept(DownloadUrl(url, None));
        return false;
      }
      if UtilUrl.IsMagnetUri(url) {
        Intercept(DownloadUrl(url, None));
        return false;
      }
      return true;
    }

    /**
     * Like ShouldLoadUrl, but a mimetype the backend can handle is sent as a
     * download carrying that mimetype before any other test.
     */
    method ShouldLoadMimetype(url: string, mimetype: string) returns (load: bool)
      modifies this`seenCache, this`downloadsStarted, this`sent
      ensures classifier.isAllowedMimetype(mimetype) ==>
        !load && seenCache == old(seenCache) &&
        downloadsStarted == old(downloadsStarted) + 1 && sent == old(sent) + [DownloadUrl(url, Some(mimetype))]
      ensures !classifier.isAllowedMimetype(mimetype) && url in old(seenCache) ==>
        load && seenCache == old(seenCache) - {url} &&
        downloadsStarted == old(downloadsStarted) && sent == old(sent)
      ensures !classifier.isAllowedMimetype(mimetype) && url !in old(seenCache) ==>
        seenCache == old(seenCache) &&
        (load <==> Classify(classifier, url) == Load) &&
        (load ==> downloadsStarted == old(downloadsStarted) && sent == old(sent)) &&
        (!load ==> downloadsStarted == old(downloadsStarted) + 1 &&
                   sent == old(sent) + [MessageFor(Classify(classifier, url), url)])
    {
      if classifier.isAllowedMimetype(mimetype) {
        Intercept(DownloadUrl(url, Some(mimetype)));
        return false;
      }
      load := ShouldLoadUrl(url);
    }

    /** Whether a response is saved as a download; only its mimetype matters. */
    function ShouldDownloadUrl(url: string, mimetype: string): (r: bool)
      ensures r <==> classifier.isDownloadMimetype(mimetype)
    {
      classifier.isDownloadMimetype(mimetype)
    }

    /** A finished browser download is handed to the backend by URL. */
    method DoDownloadFinished(url: string)
      modifies this`downloadsStarted, this`sent
      ensures downloadsStarted == old(downloadsStarted) + 1
      ensures sent == old(sent) + [DownloadUrl(url, None)]
    {
      Intercept(DownloadUrl(url, None));
    }
  }

  /**
   * The one-shot bypass: a URL the browser was told to open is loaded once
   * without consulting the policy, and the next request for it is judged
   * like any other.
   */
  method UnknownUrlBypassesOnce(b: Browser, url: string) returns (first: bool, second: bool)
    modifies b
    ensures first
    ensures second <==> Classify(b.classifier, url) == Load
    ensures url !in b.seenCache && b.seenCache == old(b.seenCache) - {url}
    ensures b.navigated == old(b.navigated) + [url]
  {
    b.HandleUnknownUrl(url);
    first := b.ShouldLoadUrl(url);
    second := b.ShouldLoadUrl(url);
  }
}
