/**
 * The chapter list of a novel (komga.ts:106-126): every page of every book's
 * reading order becomes one chapter, book by book and page by page, labelled
 * with a per-book counter and pointed at the page's href rewritten to start at
 * its last `api/v1`.
 */
module Chapters {
  import opened Wrappers
  import opened Strings

  /** One entry of a book manifest's reading order. */
  datatype Link = Link(href: string)

  datatype Manifest = Manifest(readingOrder: seq<Link>)

  datatype BookMetadata = BookMetadata(title: string)

  /** One element of the `content` list of a series' books. */
  datatype Book = Book(id: string, metadata: BookMetadata)

  /** A book together with the manifest fetched for it. */
  datatype FetchedBook = FetchedBook(book: Book, manifest: Manifest)

  datatype ChapterItem = ChapterItem(name: string, path: string)

  const Marker: string := "api/v1"

  // ---------------------------------------------------------------------
  // Chapter paths.

  /** `'api/v1' + href.split('api/v1').pop()`. */
  function ChapterPath(href: string): string
  {
    Marker + Last(Split(href, Marker))
  }

  /** `pat` occurs at `i` in `s` and at no later position. */
  predicate LastOccurrence(s: string, pat: string, i: nat)
  {
    OccursAt(s, pat, i) && forall j: nat | i < j <= |s| :: !OccursAt(s, pat, j)
  }

  /** No suffix of the marker other than itself starts with its first letter. */
  lemma MarkerNoSelfOverlap(s: string, i: nat, j: nat)
    requires OccursAt(s, Marker, i) && i < j < i + |Marker|
    ensures !OccursAt(s, Marker, j)
  {
    assert s[j] == s[i..i + |Marker|][j - i] == Marker[j - i] != 'a';
  }

  /**
   * A chapter path is the href from its last `api/v1` on; an href without
   * the marker gets the marker in front of all of it.
   */
  lemma ChapterPathSpec(href: string)
    ensures !Contains(href, Marker) ==> ChapterPath(href) == Marker + href
    ensures Contains(href, Marker) ==>
      exists i: nat | i <= |href| :: LastOccurrence(href, Marker, i) && ChapterPath(href) == href[i..]
  {
    var p := Last(Split(href, Marker));
    SplitLast(href, Marker);
    if Contains(href, Marker) {
      var i: nat := |href| - |p| - |Marker|;
      assert OccursAt(href, Marker, i);
      assert href[i..] == href[i..i + |Marker|] + href[i + |Marker|..];
      forall j: nat | i < j
        ensures !OccursAt(href, Marker, j)
      {
        if j < i + |Marker| {
          MarkerNoSelfOverlap(href, i, j);
        } else if OccursAt(href, Marker, j) {
          assert href[i + |Marker|..] == p;
          OccursInSuffix(href, i + |Marker|, j);
        }
      }
      assert LastOccurrence(href, Marker, i) && ChapterPath(href) == href[i..];
    }
  }

  /** An occurrence at or after `off` is an occurrence in `s[off..]`. */
  lemma OccursInSuffix(s: string, off: nat, j: nat)
    requires off <= j && OccursAt(s, Marker, j)
    ensures Contains(s[off..], Marker)
  {
    assert OccursAt(s[off..], Marker, j - off);
  }

  /** A rewritten path is rewritten to itself. */
  lemma ChapterPathIdempotent(href: string)
    ensures ChapterPath(ChapterPath(href)) == ChapterPath(href)
  {
    var p := Last(Split(href, Marker));
    var s := Marker + p;
    assert OccursAt(s, Marker, 0);
    FindFirstIs(s, Marker, 0);
    SplitStep(s, Marker);
    assert s[|Marker|..] == p;
    assert !Contains(p, Marker);
  }

  // ---------------------------------------------------------------------
  // Chapter labels.

  /** `${i} - ${title}` for the page counter `i`. */
  function ChapterLabel(k: nat, title: string): string
  {
    NatToString(k) + " - " + title
  }

  /** The counter a chapter label starts with, read up to the first ` - `. */
  function LabelIndex(text: string): Option<nat>
  {
    match FindFirst(text, " - ")
    case None => None
    case Some(i) =>
      if 0 < i && AllDigits(text[..i]) then Some(ParseNat(text[..i])) else None
  }

  /** The title a chapter label carries after its first ` - `. */
  function LabelTitle(text: string): Option<string>
  {
    match FindFirst(text, " - ")
    case None => None
    case Some(i) => Some(text[i + 3..])
  }

  /** A label gives back the counter and the book title it was made from. */
  lemma LabelReadsBack(k: nat, title: string)
    ensures LabelIndex(ChapterLabel(k, title)) == Some(k)
    ensures LabelTitle(ChapterLabel(k, title)) == Some(title)
  {
    var d := NatToString(k);
    var text := ChapterLabel(k, title);
    assert text[..|d|] == d;
    assert OccursAt(text, " - ", |d|);
    forall j: nat | j < |d|
      ensures !OccursAt(text, " - ", j)
    {
      assert text[j] == d[j];
      assert IsDigit(d[j]);
    }
    FindFirstIs(text, " - ", |d|);
    assert text[|d| + 3..] == title;
    ParseNatToString(k);
  }

  // ---------------------------------------------------------------------
  // The chapter list.

  /** The chapters of one book: page `k` is labelled `k - title`. */
  function BookChapters(fb: FetchedBook): (r: seq<ChapterItem>)
    ensures |r| == |fb.manifest.readingOrder|
  {
    var pages := fb.manifest.readingOrder;
    seq(|pages|, k requires 0 <= k < |pages| =>
      ChapterItem(ChapterLabel(k, fb.book.metadata.title), ChapterPath(pages[k].href)))
  }

  /** The chapters of the books in order, the last book's at the end. */
  function ChaptersOf(books: seq<FetchedBook>): seq<ChapterItem>
  {
    if |books| == 0 then []
    else ChaptersOf(books[..|books| - 1]) + BookChapters(books[|books| - 1])
  }

  /** The number of reading-order pages over all books. */
  function TotalPages(books: seq<FetchedBook>): nat
  {
    if |books| == 0 then 0
    else TotalPages(books[..|books| - 1]) + |books[|books| - 1].manifest.readingOrder|
  }

  /** Where the chapters of book `b` start in the list. */
  function Offset(books: seq<FetchedBook>, b: nat): nat
    requires b <= |books|
  {
    TotalPages(books[..b])
  }

  /** One chapter per page. */
  lemma {:induction false} ChaptersCount(books: seq<FetchedBook>)
    ensures |ChaptersOf(books)| == TotalPages(books)
  {
    if |books| > 0 {
      ChaptersCount(books[..|books| - 1]);
    }
  }

  /** The chapters of book `b + 1` start right after the pages of book `b`. */
  lemma OffsetStep(books: seq<FetchedBook>, b: nat)
    requires b < |books|
    ensures Offset(books, b + 1) == Offset(books, b) + |books[b].manifest.readingOrder|
  {
    assert books[..b + 1][..b] == books[..b];
  }

  /**
   * Book-major, page-minor: page `k` of book `b` is the chapter at
   * `Offset(books, b) + k`, labelled with `k` and that book's title.
   */
  lemma {:induction false} ChapterAt(books: seq<FetchedBook>, b: nat, k: nat)
    requires b < |books| && k < |books[b].manifest.readingOrder|
    ensures Offset(books, b) + k < |ChaptersOf(books)|
    ensures ChaptersOf(books)[Offset(books, b) + k]
         == ChapterItem(ChapterLabel(k, books[b].book.metadata.title),
                        ChapterPath(books[b].manifest.readingOrder[k].href))
  {
    var init := books[..|books| - 1];
    ChaptersCount(init);
    if b == |books| - 1 {
      assert books[..b] == init;
    } else {
      ChapterAt(init, b, k);
      assert init[..b] == books[..b];
      assert init[b] == books[b];
    }
  }

  /**
   * The loop of komga.ts:112-124: for each book, a counter `i` starts at 0
   * and goes up by one per page of its reading order.
   */
  method BuildChapters(books: seq<FetchedBook>) returns (chapters: seq<ChapterItem>)
    ensures chapters == ChaptersOf(books)
    ensures |chapters| == TotalPages(books)
  {
    chapters := [];
    for b := 0 to |books|
      invariant chapters == ChaptersOf(books[..b])
    {
      var pages := books[b].manifest.readingOrder;
      var title := books[b].book.metadata.title;
      var i := 0;
      for p := 0 to |pages|
        invariant i == p
        invariant chapters == ChaptersOf(books[..b]) + BookChapters(books[b])[..p]
      {
        chapters := chapters + [ChapterItem(ChapterLabel(i, title), ChapterPath(pages[p].href))];
        i := i + 1;
      }
      assert BookChapters(books[b])[..|pages|] == BookChapters(books[b]);
      assert books[..b + 1][..b] == books[..b];
    }
    assert books[..|books|] == books;
    ChaptersCount(books);
  }
}
