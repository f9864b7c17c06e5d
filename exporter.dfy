/**
 * The orchestration of `main`: resolve the cookies, plan the board and list folders,
 * download the attachments of every card, archive the board folder and report the
 * total and the deliverable's location. Loading the export file is I/O: the parsed
 * board is an input here.
 */
module Exporter {
  import opened Wrappers
  import opened TrelloData
  import Cookies
  import Folders
  import Downloads

  /** What `main` prints at the end: the number of downloaded files and where the result lies. */
  datatype Summary = Summary(totalDownloads: nat, location: Path)

  /** The last segment of a path (pathlib's `name`), empty for the empty path. */
  function Name(p: Path): string
  {
    if p == [] then "" else p[|p| - 1]
  }

  /** Everything but the last segment (pathlib's `parent`). */
  function Parent(p: Path): Path
  {
    if p == [] then [] else p[..|p| - 1]
  }

  /**
   * The archive `create_zip_archive` writes: `<zip_name or folder name>.zip`,
   * placed beside the folder, in its parent.
   */
  function ArchivePath(folder: Path, zipName: Option<string>): (r: Path)
    ensures r != [] && Parent(r) == Parent(folder)
    ensures Name(r) == zipName.GetOr(Name(folder)) + ".zip"
  {
    Parent(folder) + [zipName.GetOr(Name(folder)) + ".zip"]
  }

  /**
   * `main`, from the cookie lookup to the summary. `archiveReturned` says whether
   * `create_zip_archive` returned a path: the archive was written, its size read and
   * the board folder removed. The summary then names the archive, otherwise the
   * board folder.
   */
  method RunExport(isAlnum: char -> bool, download: Downloads.Downloader,
                   chromeRows: seq<Cookies.Row>, firefoxRows: seq<Cookies.Row>, manual: CookieJar,
                   outputFolder: Path, board: Board, archiveReturned: bool)
    returns (outcome: Result<Summary, Cookies.Exit>, ghost calls: seq<Downloads.Request>)
    ensures outcome.Failure? <==> chromeRows == [] && firefoxRows == [] && manual == map[]
    ensures outcome.Failure? ==> calls == []
    ensures outcome.Success? ==>
      var resolved := Cookies.ResolveCookies(Cookies.BrowserCookies(chromeRows, firefoxRows), manual);
      resolved.Success? &&
      var cookies := resolved.value;
      var boardPath := Folders.BoardPath(outputFolder, board.name);
      var listPaths := Folders.ListPaths(boardPath, board.lists);
      && calls == Downloads.BoardRequests(isAlnum, board.cards, listPaths)
      && outcome.value.totalDownloads == Downloads.TotalDownloads(isAlnum, download, cookies, board.cards, listPaths)
      && outcome.value.totalDownloads == Downloads.CountOk(download, cookies, calls)
      && outcome.value.location == if archiveReturned then ArchivePath(boardPath, None) else boardPath
  {
    var browser := Cookies.GetBrowserCookies(chromeRows, firefoxRows);
    var resolved := Cookies.ResolveCookies(browser, manual);
    if resolved.Failure? {
      return Failure(resolved.error), [];
    }
    var cookies := resolved.value;
    var boardPath := Folders.BoardPath(outputFolder, board.name);
    var listPaths := Folders.CreateListFolders(boardPath, board.lists);
    var totalDownloads;
    totalDownloads, calls := Downloads.DownloadAllCards(isAlnum, download, cookies, board.cards, listPaths);
    var location := if archiveReturned then ArchivePath(boardPath, None) else boardPath;
    outcome := Success(Summary(totalDownloads, location));
  }
}
