/**
 * The series details `parseNovel` reads (komga.ts:80-104): the author line
 * built from the writer-role credits, the genre line, and the status table.
 */
module Novel {
  import opened Wrappers
  import opened Strings

  /** One credit of `booksMetadata.authors`. */
  datatype Author = Author(name: string, role: string)

  datatype BooksMetadata = BooksMetadata(authors: seq<Author>, summary: string)

  datatype SeriesMetadata = SeriesMetadata(status: string, genres: seq<string>)

  /** The parsed series record of `GET api/v1/series/{id}`. */
  datatype Series = Series(id: string, name: string, metadata: SeriesMetadata, booksMetadata: BooksMetadata)

  // ---------------------------------------------------------------------
  // Author line.

  predicate IsWriter(a: Author)
  {
    a.role == "writer"
  }

  /**
   * `authors.filter(a => a.role === 'writer')`, as names: a name is listed
   * exactly when some writer-role credit carries it.
   */
  function WriterNames(authors: seq<Author>): (names: seq<string>)
    ensures |names| <= |authors|
    ensures forall n :: n in names <==> exists a :: a in authors && IsWriter(a) && a.name == n
  {
    if |authors| == 0 then []
    else (if IsWriter(authors[0]) then [authors[0].name] else []) + WriterNames(authors[1..])
  }

  /** The `reduce` step: a separator only once something has been written. */
  function AppendName(acc: string, name: string): string
  {
    acc + (if acc != "" then ", " else "") + name
  }

  /** `names.reduce(AppendName, acc)`, folding from the left. */
  function FoldNames(acc: string, names: seq<string>): string
    decreases |names|
  {
    if |names| == 0 then acc else FoldNames(AppendName(acc, names[0]), names[1..])
  }

  /** The author line of komga.ts:81-83. */
  function AuthorString(authors: seq<Author>): string
  {
    FoldNames("", WriterNames(authors))
  }

  /** The names without the empty ones in front. */
  function DropLeadingEmpty(names: seq<string>): (r: seq<string>)
    ensures |r| <= |names|
    ensures |r| == 0 || r[0] != ""
    ensures exists n :: 0 <= n <= |names| && r == names[n..] && forall k :: 0 <= k < n ==> names[k] == ""
  {
    if |names| == 0 || names[0] != "" then
      assert names == names[0..];
      names
    else
      var r := DropLeadingEmpty(names[1..]);
      var m :| 0 <= m <= |names| - 1 && r == names[1..][m..] && forall k :: 0 <= k < m ==> names[1..][k] == "";
      assert r == names[m + 1..];
      assert forall k :: 0 <= k < m + 1 ==> names[k] == "";
      r
  }

  /** Filtering keeps order: the writers of two lists are those of each, in turn. */
  lemma {:induction false} WriterNamesAppend(a: seq<Author>, b: seq<Author>)
    ensures WriterNames(a + b) == WriterNames(a) + WriterNames(b)
  {
    if |a| == 0 {
      assert a + b == b;
    } else {
      var head := if IsWriter(a[0]) then [a[0].name] else [];
      assert (a + b)[0] == a[0];
      assert (a + b)[1..] == a[1..] + b;
      WriterNamesAppend(a[1..], b);
      assert WriterNames(a + b) == head + (WriterNames(a[1..]) + WriterNames(b));
    }
  }

  /** Once the accumulator holds something, every further name is preceded by ", ". */
  lemma {:induction false} FoldAfterFirst(acc: string, names: seq<string>)
    requires acc != ""
    ensures FoldNames(acc, names) == if |names| == 0 then acc else acc + ", " + Join(names, ", ")
    decreases |names|
  {
    if |names| > 0 {
      FoldAfterFirst(AppendName(acc, names[0]), names[1..]);
      if |names| > 1 {
        assert Join(names, ", ") == names[0] + ", " + Join(names[1..], ", ");
      }
    }
  }

  /**
   * The fold is `join(", ")` of the names once the empty names in front are
   * dropped: an empty name before the first non-empty one leaves no separator.
   */
  lemma {:induction false} FoldIsJoin(names: seq<string>)
    ensures FoldNames("", names) == Join(DropLeadingEmpty(names), ", ")
  {
    if |names| > 0 {
      if names[0] == "" {
        assert AppendName("", names[0]) == "";
        FoldIsJoin(names[1..]);
      } else {
        assert AppendName("", names[0]) == names[0];
        FoldAfterFirst(names[0], names[1..]);
      }
    }
  }

  /** With no empty names the author line is the writers' names joined by ", ". */
  lemma AuthorStringJoins(authors: seq<Author>)
    requires forall a :: a in authors && IsWriter(a) ==> a.name != ""
    ensures AuthorString(authors) == Join(WriterNames(authors), ", ")
  {
    var names := WriterNames(authors);
    FoldIsJoin(names);
    if |names| > 0 {
      assert names[0] in names;
    }
  }

  /** No writer gives an empty author line. */
  lemma NoWriters(authors: seq<Author>)
    requires forall a :: a in authors ==> !IsWriter(a)
    ensures AuthorString(authors) == ""
  {
    NoMemberEmpty(WriterNames(authors));
  }

  /** A list of which nothing is a member is empty. */
  lemma NoMemberEmpty(names: seq<string>)
    ensures (forall n :: n !in names) ==> names == []
  {
    if |names| > 0 {
      assert names[0] in names;
    }
  }

  /**
   * With at least one writer and names that are non-empty and free of ", ",
   * splitting the author line at ", " gives the writers back in order: no
   * separator leads, trails or doubles.
   */
  lemma AuthorStringSplits(authors: seq<Author>)
    requires exists a :: a in authors && IsWriter(a)
    requires forall a :: a in authors && IsWriter(a) ==> a.name != "" && !Contains(a.name, ", ")
    ensures Split(AuthorString(authors), ", ") == WriterNames(authors)
  {
    var names := WriterNames(authors);
    AuthorStringJoins(authors);
    var w :| w in authors && IsWriter(w);
    assert w.name in names;
    forall k | 0 <= k < |names|
      ensures !Contains(names[k], ", ")
    {
      assert names[k] in names;
    }
    SplitJoinComma(names);
  }

  // ---------------------------------------------------------------------
  // Genres.

  /** `genres.join(", ")`. */
  function GenreString(genres: seq<string>): string
  {
    Join(genres, ", ")
  }

  /** Genres free of ", " read back from the genre line, in order. */
  lemma GenresSplit(genres: seq<string>)
    requires 0 < |genres|
    requires forall k :: 0 <= k < |genres| ==> !Contains(genres[k], ", ")
    ensures Split(GenreString(genres), ", ") == genres
  {
    SplitJoinComma(genres);
  }

  /** No genres give an empty genre line, one genre gives itself. */
  lemma GenresShort(genres: seq<string>)
    requires |genres| <= 1
    ensures GenreString(genres) == if |genres| == 0 then "" else genres[0]
  {
  }

  // ---------------------------------------------------------------------
  // Status.

  datatype NovelStatus = Completed | Ongoing | Cancelled | OnHiatus | Unknown

  /** The `switch` of komga.ts:87-102. */
  function StatusOf(status: string): (r: NovelStatus)
    ensures r == Completed <==> status == "ENDED"
    ensures r == Ongoing <==> status == "ONGOING"
    ensures r == Cancelled <==> status == "ABANDONED"
    ensures r == OnHiatus <==> status == "HIATUS"
    ensures r == Unknown <==> status !in KomgaStatuses()
  {
    match status
    case "ENDED" => Completed
    case "ONGOING" => Ongoing
    case "ABANDONED" => Cancelled
    case "HIATUS" => OnHiatus
    case _ => Unknown
  }

  /** The server statuses the table knows. */
  function KomgaStatuses(): set<string>
  {
    {"ENDED", "ONGOING", "ABANDONED", "HIATUS"}
  }

  /** The server status each known host status comes from. */
  function KomgaStatus(r: NovelStatus): Option<string>
  {
    match r
    case Completed => Some("ENDED")
    case Ongoing => Some("ONGOING")
    case Cancelled => Some("ABANDONED")
    case OnHiatus => Some("HIATUS")
    case Unknown => None
  }

  /** The table is one-to-one on the known statuses, and `Unknown` has no source. */
  lemma StatusRoundTrip(status: string, r: NovelStatus)
    ensures status in KomgaStatuses() ==> KomgaStatus(StatusOf(status)) == Some(status)
    ensures KomgaStatus(r).Some? ==> StatusOf(KomgaStatus(r).value) == r
    ensures KomgaStatus(r).None? <==> r == Unknown
  {
  }
}
