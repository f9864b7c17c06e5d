/**
 * The attachment fetcher: `process_card_attachments` counts, for one card, the
 * attachments whose download succeeded, and the card loop of `main` adds these
 * counts up over the cards whose list is known, skipping the others.
 *
 * `download_file` is network and disk I/O; here it is the oracle `download`,
 * which answers whether fetching a URL to a path with the given cookies succeeded.
 * Each method also returns, as a ghost trace, the download calls it made, in order.
 */
module Downloads {
  import opened TrelloData
  import FileNames

  /** `download_file(url, save_path, cookies)`: true when the file was fetched and written. */
  type Downloader = (string, Path, CookieJar) -> bool

  /** One call of `download_file`: the URL and the path the file is saved to. */
  datatype Request = Request(url: string, savePath: Path)

  /** The calls `process_card_attachments` makes for `card`, one per attachment, in order. */
  function CardRequests(isAlnum: char -> bool, card: Card, listPath: Path): seq<Request>
  {
    var attachments := AttachmentsOf(card);
    seq(|attachments|, i requires 0 <= i < |attachments| =>
      Request(attachments[i].url,
              Join(listPath, FileNames.AttachmentFileName(isAlnum, card.name, attachments[i].name))))
  }

  /** The number of calls in `requests` that succeed. */
  function CountOk(download: Downloader, cookies: CookieJar, requests: seq<Request>): (n: nat)
    ensures n <= |requests|
  {
    if requests == [] then 0
    else
      var last := requests[|requests| - 1];
      CountOk(download, cookies, requests[..|requests| - 1])
        + if download(last.url, last.savePath, cookies) then 1 else 0
  }

  /** Counting a concatenation counts each part. */
  lemma {:induction false} CountOkAppend(download: Downloader, cookies: CookieJar, a: seq<Request>, b: seq<Request>)
    ensures CountOk(download, cookies, a + b) == CountOk(download, cookies, a) + CountOk(download, cookies, b)
  {
    if b == [] {
      assert a + b == a;
    } else {
      assert (a + b)[..|a + b| - 1] == a + b[..|b| - 1];
      CountOkAppend(download, cookies, a, b[..|b| - 1]);
    }
  }

  /** The count is the number of calls exactly when all succeed, and zero exactly when none does. */
  lemma {:induction false} CountOkExtremes(download: Downloader, cookies: CookieJar, requests: seq<Request>)
    ensures CountOk(download, cookies, requests) == |requests|
        <==> forall i :: 0 <= i < |requests| ==> download(requests[i].url, requests[i].savePath, cookies)
    ensures CountOk(download, cookies, requests) == 0
        <==> forall i :: 0 <= i < |requests| ==> !download(requests[i].url, requests[i].savePath, cookies)
  {
    if requests != [] {
      var n := |requests| - 1;
      var prefix := requests[..n];
      CountOkExtremes(download, cookies, prefix);
      assert forall i :: 0 <= i < n ==> prefix[i] == requests[i];
    }
  }

  /** What one card adds to the total: its successful downloads, or 0 when its list is unknown. */
  function CardDownloads(isAlnum: char -> bool, download: Downloader, cookies: CookieJar,
                         card: Card, listPaths: map<string, Path>): nat
  {
    if card.idList in listPaths
    then CountOk(download, cookies, CardRequests(isAlnum, card, listPaths[card.idList]))
    else 0
  }

  /** The sum of the per-card counts, over the cards in document order. */
  function TotalDownloads(isAlnum: char -> bool, download: Downloader, cookies: CookieJar,
                          cards: seq<Card>, listPaths: map<string, Path>): nat
  {
    if cards == [] then 0
    else
      TotalDownloads(isAlnum, download, cookies, cards[..|cards| - 1], listPaths)
        + CardDownloads(isAlnum, download, cookies, cards[|cards| - 1], listPaths)
  }

  /** The download calls the card loop makes: those of each card with a known list, in document order. */
  function BoardRequests(isAlnum: char -> bool, cards: seq<Card>, listPaths: map<string, Path>): seq<Request>
  {
    if cards == [] then []
    else
      var card := cards[|cards| - 1];
      BoardRequests(isAlnum, cards[..|cards| - 1], listPaths)
        + if card.idList in listPaths then CardRequests(isAlnum, card, listPaths[card.idList]) else []
  }

  /** Totals and calls of consecutive runs of cards add up: processing one card never stops the next. */
  lemma {:induction false} CardsAppend(isAlnum: char -> bool, download: Downloader, cookies: CookieJar,
                                       a: seq<Card>, b: seq<Card>, listPaths: map<string, Path>)
    ensures TotalDownloads(isAlnum, download, cookies, a + b, listPaths)
         == TotalDownloads(isAlnum, download, cookies, a, listPaths)
          + TotalDownloads(isAlnum, download, cookies, b, listPaths)
    ensures BoardRequests(isAlnum, a + b, listPaths)
         == BoardRequests(isAlnum, a, listPaths) + BoardRequests(isAlnum, b, listPaths)
  {
    if b == [] {
      assert a + b == a;
    } else {
      assert (a + b)[..|a + b| - 1] == a + b[..|b| - 1];
      CardsAppend(isAlnum, download, cookies, a, b[..|b| - 1], listPaths);
    }
  }

  /**
   * A card whose list id is unknown contributes no download and no call,
   * and the cards after it are processed as if it were not there.
   */
  lemma SkippedCardIsNeutral(isAlnum: char -> bool, download: Downloader, cookies: CookieJar,
                             before: seq<Card>, card: Card, after: seq<Card>, listPaths: map<string, Path>)
    requires card.idList !in listPaths
    ensures TotalDownloads(isAlnum, download, cookies, before + [card] + after, listPaths)
         == TotalDownloads(isAlnum, download, cookies, before + after, listPaths)
    ensures BoardRequests(isAlnum, before + [card] + after, listPaths)
         == BoardRequests(isAlnum, before + after, listPaths)
  {
    assert [card][..0] == [];
    CardsAppend(isAlnum, download, cookies, before, [card], listPaths);
    CardsAppend(isAlnum, download, cookies, before + [card], after, listPaths);
    CardsAppend(isAlnum, download, cookies, before, after, listPaths);
  }

  /**
   * The total is the number of successful calls among those the card loop makes:
   * every success of a processed card counted once, nothing from a skipped card.
   */
  lemma {:induction false} TotalCountsSuccessfulCalls(isAlnum: char -> bool, download: Downloader, cookies: CookieJar,
                                                      cards: seq<Card>, listPaths: map<string, Path>)
    ensures TotalDownloads(isAlnum, download, cookies, cards, listPaths)
         == CountOk(download, cookies, BoardRequests(isAlnum, cards, listPaths))
    ensures TotalDownloads(isAlnum, download, cookies, cards, listPaths)
         <= |BoardRequests(isAlnum, cards, listPaths)|
  {
    if cards != [] {
      var prefix, card := cards[..|cards| - 1], cards[|cards| - 1];
      TotalCountsSuccessfulCalls(isAlnum, download, cookies, prefix, listPaths);
      var own := if card.idList in listPaths then CardRequests(isAlnum, card, listPaths[card.idList]) else [];
      CountOkAppend(download, cookies, BoardRequests(isAlnum, prefix, listPaths), own);
    }
  }

  /**
   * `process_card_attachments`: tries each attachment of the card in order and
   * counts the downloads that succeed; a card without attachments gives 0.
   */
  method ProcessCardAttachments(isAlnum: char -> bool, download: Downloader, cookies: CookieJar,
                                card: Card, listPath: Path)
    returns (downloaded: nat, ghost calls: seq<Request>)
    ensures calls == CardRequests(isAlnum, card, listPath)
    ensures downloaded == CountOk(download, cookies, calls)
    ensures downloaded <= |AttachmentsOf(card)|
    ensures AttachmentsOf(card) == [] ==> downloaded == 0
  {
    var cardName := card.name;
    var attachments := AttachmentsOf(card);
    if attachments == [] {
      return 0, [];
    }
    ghost var planned := CardRequests(isAlnum, card, listPath);
    downloaded, calls := 0, [];
    for i := 0 to |attachments|
      invariant calls == planned[..i]
      invariant downloaded == CountOk(download, cookies, calls)
    {
      var url := attachments[i].url;
      var fileName := FileNames.AttachmentFileName(isAlnum, cardName, attachments[i].name);
      var filePath := Join(listPath, fileName);
      if download(url, filePath, cookies) {
        downloaded := downloaded + 1;
      }
      assert (calls + [Request(url, filePath)])[..i] == calls;
      calls := calls + [Request(url, filePath)];
    }
    assert planned[..|attachments|] == planned;
  }

  /**
   * The card loop of `main`: a card whose list id is not in `listPaths` is skipped,
   * every other card adds its successful downloads to the total.
   */
  method DownloadAllCards(isAlnum: char -> bool, download: Downloader, cookies: CookieJar,
                          cards: seq<Card>, listPaths: map<string, Path>)
    returns (totalDownloads: nat, ghost calls: seq<Request>)
    ensures calls == BoardRequests(isAlnum, cards, listPaths)
    ensures totalDownloads == TotalDownloads(isAlnum, download, cookies, cards, listPaths)
    ensures totalDownloads == CountOk(download, cookies, calls)
  {
    totalDownloads, calls := 0, [];
    for i := 0 to |cards|
      invariant calls == BoardRequests(isAlnum, cards[..i], listPaths)
      invariant totalDownloads == TotalDownloads(isAlnum, download, cookies, cards[..i], listPaths)
    {
      var card := cards[i];
      assert cards[..i + 1][..i] == cards[..i];
      var listId := card.idList;
      if listId !in listPaths {
        continue;
      }
      var listPath := listPaths[listId];
      var downloads, cardCalls := ProcessCardAttachments(isAlnum, download, cookies, card, listPath);
      totalDownloads := totalDownloads + downloads;
      calls := calls + cardCalls;
    }
    assert cards[..|cards|] == cards;
    TotalCountsSuccessfulCalls(isAlnum, download, cookies, cards, listPaths);
  }
}
