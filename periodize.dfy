/** An issue of a periodical, its sections and its articles, and the layout
    pass (`prepare`) that fills in their derived fields in place before the
    documents are rendered. */
module Periodize {
  import opened Format
  import opened Layout

  datatype Option<T> = None | Some(value: T)

  /** What `CoverImage` holds: a stream supplied by the caller, or the
      blank white image `createBlankCover` draws when none was supplied. */
  datatype Cover = Supplied(bytes: seq<bv8>) | BlankWhite(width: nat, height: nat)

  /** The image `createBlankCover` produces: 600 by 800 white pixels. */
  const BlankCover := BlankWhite(600, 800)

  /** A destination for bytes (`io.Writer`) that keeps everything written. */
  class Sink {
    var written: seq<char>

    constructor ()
      ensures written == []
    {
      written := [];
    }

    method Write(data: seq<char>)
      modifies this
      ensures written == old(written) + data
    {
      written := written + data;
    }
  }

  /** An article: a struct value, held by its section in a slice. */
  datatype Article = Article(
    title: string,
    author: string,
    content: string,
    // Set by the layout pass
    playOrder: nat,
    href: string)
  {
    /** `Article.prepare`: the article with play order `p` and the file name
        that goes with it; everything the author supplied is kept. */
    function Prepare(p: nat): (r: Article)
      ensures r.playOrder == p && r.href == Href(p)
      ensures r.title == title && r.author == author && r.content == content
    {
      this.(playOrder := p, href := Href(p))
    }

    /** Writes the article's content, unchanged, to `wr`. */
    method GenerateContent(wr: Sink)
      modifies wr
      ensures wr.written == old(wr.written) + content
    {
      wr.Write(content);
    }
  }

  /** A section: a struct value, held by its issue in a slice. */
  datatype Section = Section(
    title: string,
    articles: seq<Article>,
    // Set by the layout pass
    sectionID: string,
    playOrder: nat,
    href: string)
  {
    /** The section as `Section.prepare(index, p)` leaves it: identified by
        its position, numbered `p`, and article `j` prepared with `p + j`. */
    function Prepared(index: nat, p: nat): (r: Section)
      ensures r.title == title && |r.articles| == |articles|
      ensures r.sectionID == SectionId(index) && r.playOrder == p && r.href == Href(p)
      ensures forall j :: 0 <= j < |articles| ==> r.articles[j] == articles[j].Prepare(p + j)
    {
      this.(sectionID := SectionId(index), playOrder := p, href := Href(p),
            articles := seq(|articles|, j requires 0 <= j < |articles| => articles[j].Prepare(p + j)))
    }

    /** `Section.prepare`: sets the section's own fields, then prepares
        each article in turn with the next play order. */
    method Prepare(sectionIndex: nat, p: nat) returns (r: Section)
      ensures r == Prepared(sectionIndex, p)
    {
      r := this.(sectionID := SectionId(sectionIndex), playOrder := p, href := Href(p));

      var prepared := r.articles;
      var i := 0;
      while i < |prepared|
        invariant 0 <= i <= |prepared| == |articles|
        invariant forall j :: 0 <= j < i ==> prepared[j] == Prepared(sectionIndex, p).articles[j]
        invariant forall j :: i <= j < |articles| ==> prepared[j] == articles[j]
      {
        // The first article gets the same play order as the section.
        prepared := prepared[i := prepared[i].Prepare(p + i)];
        i := i + 1;
      }
      r := r.(articles := prepared);
    }
  }

  /** An article as a caller builds it, before the layout pass. */
  function NewArticle(title: string, author: string, content: string): Article {
    Article(title, author, content, 0, "")
  }

  /** A section as a caller builds it, before the layout pass. */
  function NewSection(title: string, articles: seq<Article>): Section {
    Section(title, articles, "", 0, "")
  }

  /** Preparing an article again overwrites the first numbering entirely. */
  lemma PrepareOverwrites(a: Article, p: nat, q: nat)
    ensures a.Prepare(p).Prepare(q) == a.Prepare(q)
  {
  }

  /** Two preparations give the same article, and the same file name,
      exactly when they use the same play order. */
  lemma PrepareInjective(a: Article, p: nat, q: nat)
    ensures a.Prepare(p) == a.Prepare(q) <==> p == q
    ensures a.Prepare(p).href == a.Prepare(q).href <==> p == q
  {
    HrefInjective(p, q);
  }

  /** The values `TestPrepareArticle` expects. */
  lemma PrepareArticleExample()
    ensures NewArticle("Test Title", "Test Author", "Test Content").Prepare(0).href == "000000.html"
    ensures NewArticle("Test Title", "Test Author", "Test Content").Prepare(0).Prepare(123).href == "000123.html"
  {
    HrefsZeroOne();
    SectionTwoAt123();
  }

  /** A prepared section with articles shares its play order and file name
      with its first article, and its articles are numbered consecutively. */
  lemma SectionSharesFirstArticle(s: Section, index: nat, p: nat)
    ensures var r := s.Prepared(index, p);
      |r.articles| > 0 ==> r.playOrder == r.articles[0].playOrder && r.href == r.articles[0].href
    ensures var r := s.Prepared(index, p);
      seq(|r.articles|, j requires 0 <= j < |r.articles| => r.articles[j].playOrder) == Run(p, |s.articles|)
  {
  }

  /** The values `TestPrepareSection` expects. */
  lemma PrepareSectionExample()
    ensures var r := NewSection("Test Section", [NewArticle("Test Title 1", "Test Author 1", "Test Content 1"),
                                                NewArticle("Test Title 2", "Test Author 2", "Test Content 2")]).Prepared(2, 123);
      r.sectionID == "section-2" && r.playOrder == 123 && r.href == "000123.html" &&
      r.articles[0].playOrder == 123 && r.articles[0].href == "000123.html" &&
      r.articles[1].playOrder == 124 && r.articles[1].href == "000124.html"
  {
    SectionTwoAt123();
    HrefOf124();
  }

  /** The identifier of section 2 and the file name of play order 123. */
  lemma SectionTwoAt123()
    ensures SectionId(2) == "section-2"
    ensures Href(123) == "000123.html"
  {
    assert Decimal(123) == "123";
  }

  /** The file name of play order 124. */
  lemma HrefOf124()
    ensures Href(124) == "000124.html"
  {
    assert Decimal(124) == "124";
  }

  /** How many articles each section holds. */
  function ArticleCounts(sections: seq<Section>): (counts: seq<nat>)
    ensures |counts| == |sections|
    ensures forall i :: 0 <= i < |sections| ==> counts[i] == |sections[i].articles|
  {
    seq(|sections|, i requires 0 <= i < |sections| => |sections[i].articles|)
  }

  /** The play orders of the articles, one row per section. */
  function PlayOrders(sections: seq<Section>): (rows: seq<seq<nat>>)
    ensures |rows| == |sections|
    ensures forall i :: 0 <= i < |sections| ==> |rows[i]| == |sections[i].articles|
    ensures forall i, j :: 0 <= i < |sections| && 0 <= j < |sections[i].articles| ==>
      rows[i][j] == sections[i].articles[j].playOrder
  {
    seq(|sections|, i requires 0 <= i < |sections| =>
      seq(|sections[i].articles|, j requires 0 <= j < |sections[i].articles| => sections[i].articles[j].playOrder))
  }

  /** The sections as the layout pass leaves them: section `i` prepared as
      section `i` with the number of articles in the sections before it. */
  function PreparedSections(sections: seq<Section>): (r: seq<Section>)
    ensures |r| == |sections|
    ensures forall i :: 0 <= i < |sections| ==> r[i] == sections[i].Prepared(i, Offset(ArticleCounts(sections), i))
  {
    seq(|sections|, i requires 0 <= i < |sections| => sections[i].Prepared(i, Offset(ArticleCounts(sections), i)))
  }

  class Issue {
    var uniqueID: string
    var title: string
    var creator: string
    var publisher: string
    var subject: string
    var description: string
    var date: string
    var coverImage: Option<Cover>
    var sections: seq<Section>

    constructor (uniqueID: string, title: string, coverImage: Option<Cover>, sections: seq<Section>)
      ensures this.uniqueID == uniqueID && this.title == title
      ensures this.coverImage == coverImage && this.sections == sections
      ensures creator == "" && publisher == "" && subject == "" && description == "" && date == ""
    {
      this.uniqueID, this.title, this.coverImage, this.sections := uniqueID, title, coverImage, sections;
      creator, publisher, subject, description, date := "", "", "", "", "";
    }

    /** `Issue.prepare`: defaults the unique identifier (to the decimal form
        of `randomInt`, which stands for `rand.Int()`) and the cover, then
        numbers the sections. */
    method Prepare(randomInt: nat)
      modifies this`uniqueID, this`coverImage, this`sections
      ensures uniqueID == if old(uniqueID) == "" then Decimal(randomInt) else old(uniqueID)
      ensures uniqueID != ""
      ensures coverImage == if old(coverImage).None? then Some(BlankCover) else old(coverImage)
      ensures sections == PreparedSections(old(sections))
    {
      if uniqueID == "" {
        uniqueID := Decimal(randomInt);
      }

      if coverImage.None? {
        coverImage := Some(BlankCover);
      }

      PrepareSections();
    }

    /** The loop of `Issue.prepare`: prepares the sections in order, with a
        running play-order counter that advances by each section's article
        count. */
    method PrepareSections()
      modifies this`sections
      ensures sections == PreparedSections(old(sections))
    {
      ghost var counts := ArticleCounts(sections);
      var playOrder := 0;
      var i := 0;
      while i < |sections|
        invariant 0 <= i <= |sections| == |old(sections)|
        invariant playOrder == Offset(counts, i)
        invariant forall k :: 0 <= k < i ==> sections[k] == old(sections[k]).Prepared(k, Offset(counts, k))
        invariant forall k :: i <= k < |sections| ==> sections[k] == old(sections[k])
      {
        var prepared := sections[i].Prepare(i, playOrder);
        sections := sections[i := prepared];
        OffsetStep(counts, i);
        playOrder := playOrder + |prepared.articles|;
        i := i + 1;
      }
    }
  }

  /** The layout pass keeps the shape of the issue and everything the
      caller supplied: section titles, and every article's title, author
      and content. */
  lemma PreparedKeepsContent(sections: seq<Section>)
    ensures var r := PreparedSections(sections);
      ArticleCounts(r) == ArticleCounts(sections) &&
      (forall i :: 0 <= i < |r| ==> r[i].title == sections[i].title) &&
      (forall i, j :: 0 <= i < |r| && 0 <= j < |r[i].articles| ==>
        r[i].articles[j].title == sections[i].articles[j].title &&
        r[i].articles[j].author == sections[i].articles[j].author &&
        r[i].articles[j].content == sections[i].articles[j].content)
  {
    var r := PreparedSections(sections);
    assert ArticleCounts(r) == ArticleCounts(sections);
  }

  /** After the layout pass the article play orders are the layout table
      of the article counts: in reading order they run 0, 1, ..., N-1. */
  lemma {:induction false} PreparedPlayOrders(sections: seq<Section>)
    ensures PlayOrders(PreparedSections(sections)) == Table(ArticleCounts(sections))
    ensures Flatten(PlayOrders(PreparedSections(sections))) == Run(0, Sum(ArticleCounts(sections)))
  {
    var counts := ArticleCounts(sections);
    var r, orders, table := PreparedSections(sections), PlayOrders(PreparedSections(sections)), Table(counts);
    forall i | 0 <= i < |sections|
      ensures orders[i] == table[i]
    {
      forall j | 0 <= j < |orders[i]|
        ensures orders[i][j] == table[i][j]
      {
        assert orders[i][j] == r[i].articles[j].playOrder;
      }
    }
    ReadingOrderContiguous(counts);
  }

  /** After the layout pass no two sections share an identifier. */
  lemma PreparedSectionIdsUnique(sections: seq<Section>, i: nat, k: nat)
    requires i < |sections| && k < |sections| && i != k
    ensures PreparedSections(sections)[i].sectionID != PreparedSections(sections)[k].sectionID
  {
    SectionIdInjective(i, k);
  }

  /** After the layout pass no two articles share a play order or a file
      name, so no article file overwrites another. */
  lemma PreparedArticlesUnique(sections: seq<Section>, i: nat, j: nat, k: nat, l: nat)
    requires i < |sections| && j < |sections[i].articles|
    requires k < |sections| && l < |sections[k].articles|
    requires i != k || j != l
    ensures var r := PreparedSections(sections);
      r[i].articles[j].playOrder != r[k].articles[l].playOrder &&
      r[i].articles[j].href != r[k].articles[l].href
  {
    var counts, r := ArticleCounts(sections), PreparedSections(sections);
    assert r[i].articles[j] == sections[i].articles[j].Prepare(Offset(counts, i) + j);
    assert r[k].articles[l] == sections[k].articles[l].Prepare(Offset(counts, k) + l);
    ArticleHrefsDistinct(counts, i, j, k, l);
  }

  /** Section play orders never decrease along the issue; two sections get
      the same play order, and so the same file name, exactly when every
      section from the first up to the second is empty. */
  lemma PreparedSectionOrder(sections: seq<Section>, i: nat, k: nat)
    requires i <= k < |sections|
    ensures var r := PreparedSections(sections);
      r[i].playOrder <= r[k].playOrder &&
      (r[i].playOrder == r[k].playOrder <==> forall m :: i <= m < k ==> sections[m].articles == []) &&
      (r[i].href == r[k].href <==> forall m :: i <= m < k ==> sections[m].articles == [])
  {
    var counts := ArticleCounts(sections);
    OffsetMonotone(counts, i, k);
    HrefInjective(Offset(counts, i), Offset(counts, k));
    assert (forall m :: i <= m < k ==> counts[m] == 0) <==> (forall m :: i <= m < k ==> sections[m].articles == []);
  }

  /** A section with no articles from it to the end of the issue gets the
      play order one past the last article: the total number of articles. */
  lemma TrailingEmptySectionOrder(sections: seq<Section>, i: nat)
    requires i < |sections|
    requires forall m :: i <= m < |sections| ==> sections[m].articles == []
    ensures PreparedSections(sections)[i].playOrder == Sum(ArticleCounts(sections))
  {
    OffsetPastLast(ArticleCounts(sections), i);
  }

  /** Such a section's file name is that of no article of the issue. */
  lemma TrailingEmptySectionHref(sections: seq<Section>, i: nat, k: nat, l: nat)
    requires i < |sections|
    requires forall m :: i <= m < |sections| ==> sections[m].articles == []
    requires k < |sections| && l < |sections[k].articles|
    ensures PreparedSections(sections)[k].articles[l].href != PreparedSections(sections)[i].href
  {
    var counts := ArticleCounts(sections);
    assert k < i;
    ArticleBeforeSection(counts, k, l, i);
    HrefInjective(Offset(counts, k) + l, Offset(counts, i));
  }

  /** Preparing a prepared section again with the same numbers changes nothing. */
  lemma SectionPreparedIdempotent(s: Section, index: nat, p: nat)
    ensures s.Prepared(index, p).Prepared(index, p) == s.Prepared(index, p)
  {
    var r := s.Prepared(index, p);
    assert r.Prepared(index, p).articles == r.articles;
  }

  /** Running the layout pass a second time changes nothing. */
  lemma PreparedIdempotent(sections: seq<Section>)
    ensures PreparedSections(PreparedSections(sections)) == PreparedSections(sections)
  {
    var r := PreparedSections(sections);
    var counts := ArticleCounts(sections);
    assert ArticleCounts(r) == counts;
    forall i | 0 <= i < |r|
      ensures r[i].Prepared(i, Offset(counts, i)) == r[i]
    {
      SectionPreparedIdempotent(sections[i], i, Offset(counts, i));
    }
  }

  /** The file names of the first two play orders. */
  lemma HrefsZeroOne()
    ensures Href(0) == "000000.html" && Href(1) == "000001.html"
  {
  }

  /** The file names of the next two play orders. */
  lemma HrefsTwoThree()
    ensures Href(2) == "000002.html" && Href(3) == "000003.html"
  {
  }

  /** The values `TestPrepareIssue` expects: two sections of two articles. */
  lemma PrepareIssueExample(a: Article, b: Article, c: Article, d: Article)
    ensures var r := PreparedSections([NewSection("Test Section 1", [a, b]), NewSection("Test Section 2", [c, d])]);
      r[0].sectionID == "section-0" && r[1].sectionID == "section-1" &&
      r[0].playOrder == r[0].articles[0].playOrder && r[1].playOrder == r[1].articles[0].playOrder &&
      r[0].href == r[0].articles[0].href && r[1].href == r[1].articles[0].href &&
      r[0].articles[0].playOrder == 0 && r[0].articles[1].playOrder == 1 &&
      r[1].articles[0].playOrder == 2 && r[1].articles[1].playOrder == 3 &&
      r[0].articles[0].href == "000000.html" && r[0].articles[1].href == "000001.html" &&
      r[1].articles[0].href == "000002.html" && r[1].articles[1].href == "000003.html"
  {
    var s := [NewSection("Test Section 1", [a, b]), NewSection("Test Section 2", [c, d])];
    assert ArticleCounts(s) == [2, 2];
    TwoByTwoExample();
    HrefsZeroOne();
    HrefsTwoThree();
    var r := PreparedSections(s);
    assert r[0] == s[0].Prepared(0, 0);
    assert r[1] == s[1].Prepared(1, 2);
  }
}
