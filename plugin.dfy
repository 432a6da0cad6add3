/**
 * `parseNovel` (komga.ts:68-128): the novel record handed to the host, filled
 * in field by field from the parsed series and the books with their manifests.
 */
module Plugin {
  import opened Wrappers
  import opened Urls
  import opened Novel
  import opened Chapters

  /**
   * The host's novel record. Every field but `path` and `name` is optional:
   * the record starts with only those two.
   */
  datatype SourceNovel = SourceNovel(
    path: string,
    name: string,
    author: Option<string>,
    cover: Option<string>,
    genres: Option<string>,
    status: Option<NovelStatus>,
    summary: Option<string>,
    chapters: Option<seq<ChapterItem>>)

  /**
   * Starts from `{path, name: 'Untitled'}` and sets each field in the order
   * of komga.ts:80-126; `books` are the series' books, each with the manifest
   * fetched for it.
   */
  method ParseNovel(site: string, novelPath: string, series: Series, books: seq<FetchedBook>)
    returns (novel: SourceNovel)
    ensures novel.path == novelPath && novel.name == series.name
    ensures novel.author == Some(AuthorString(series.booksMetadata.authors))
    ensures novel.cover == Some(ThumbnailUrl(site, series.id))
    ensures novel.genres == Some(GenreString(series.metadata.genres))
    ensures novel.status == Some(StatusOf(series.metadata.status))
    ensures novel.summary == Some(series.booksMetadata.summary)
    ensures novel.chapters.Some? && novel.chapters.value == ChaptersOf(books)
    ensures |novel.chapters.value| == TotalPages(books)
  {
    novel := SourceNovel(novelPath, "Untitled", None, None, None, None, None, None);
    novel := novel.(name := series.name);
    novel := novel.(author := Some(AuthorString(series.booksMetadata.authors)));
    novel := novel.(cover := Some(site + "api/v1/series/" + series.id + "/thumbnail"));
    novel := novel.(genres := Some(GenreString(series.metadata.genres)));
    novel := novel.(status := Some(StatusOf(series.metadata.status)));
    novel := novel.(summary := Some(series.booksMetadata.summary));
    var chapters := BuildChapters(books);
    novel := novel.(chapters := Some(chapters));
  }
}
