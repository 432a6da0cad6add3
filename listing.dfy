/**
 * The series listing of `getSeries` (komga.ts:37-53): each series of the
 * server's `content` list becomes one novel item for the host, with a path
 * and a cover URL built from the series id.
 */
module Listing {
  import opened Wrappers
  import opened Urls

  /** One element of the `content` list the server returns. */
  datatype SeriesSummary = SeriesSummary(id: string, name: string)

  /** What the host is given for each series. */
  datatype NovelItem = NovelItem(name: string, path: string, cover: string)

  /** The series id a series path carries, if it is a series path. */
  function SeriesIdOf(path: string): (id: Option<string>)
    ensures id.Some? <==> 14 <= |path| && path[..14] == "api/v1/series/"
  {
    if 14 <= |path| && path[..14] == "api/v1/series/" then Some(path[14..]) else None
  }

  /** A series path gives back its id. */
  lemma SeriesPathReadsBack(id: string)
    ensures SeriesIdOf(SeriesPath(id)) == Some(id)
  {
    assert SeriesPath(id)[..14] == "api/v1/series/";
  }

  /** Different series get different paths and different covers. */
  lemma SeriesPathInjective(site: string, a: string, b: string)
    requires a != b
    ensures SeriesPath(a) != SeriesPath(b)
    ensures ThumbnailUrl(site, a) != ThumbnailUrl(site, b)
  {
    var ca := ThumbnailUrl(site, a);
    var cb := ThumbnailUrl(site, b);
    var n := |site| + 14;
    assert ca[n..n + |a|] == a;
    assert cb[n..n + |b|] == b;
  }

  /**
   * `getSeries`: one item per element of `content`, in the same order, whose
   * cover is the thumbnail under the base URL of the series its path names.
   */
  method GetSeries(site: string, content: seq<SeriesSummary>) returns (novels: seq<NovelItem>)
    ensures |novels| == |content|
    ensures forall k :: 0 <= k < |content| ==>
      novels[k].name == content[k].name
      && novels[k].path == SeriesPath(content[k].id)
      && SeriesIdOf(novels[k].path) == Some(content[k].id)
      && novels[k].cover == site + novels[k].path + "/thumbnail"
  {
    novels := [];
    for j := 0 to |content|
      invariant |novels| == j
      invariant forall k :: 0 <= k < j ==>
        novels[k].name == content[k].name
        && novels[k].path == SeriesPath(content[k].id)
        && SeriesIdOf(novels[k].path) == Some(content[k].id)
        && novels[k].cover == site + novels[k].path + "/thumbnail"
    {
      var s := content[j];
      SeriesPathReadsBack(s.id);
      novels := novels + [NovelItem(s.name, SeriesPath(s.id), ThumbnailUrl(site, s.id))];
    }
  }
}
