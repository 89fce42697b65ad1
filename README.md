# periodize layout pass, in Dafny

This project models the layout pass of `periodize`, a Go library that turns an
`Issue` of a periodical into a Kindle `.mobi` file. An issue holds ordered
`Section`s, and each section holds ordered `Article`s. Before any document is
rendered, `Issue.prepare` does four things:

- it gives the issue a unique identifier if it has none;
- it gives the issue a blank cover if it has none;
- it numbers every section and article with a global *play order*, a counter
  that starts at 0 and runs through sections and articles in reading order;
- it gives each one a file name (*href*), which is the play order
  zero-padded to six digits followed by `.html`.

A section shares its play order and href with its first article.

The project has three modules:

- `Format` (`format.dfy`): the decimal numeral of a natural number, as
  `strconv.Itoa` and `%d` print it, and `pad` (`%06d`). It proves round trips
  between numerals and values, the width of `pad`, and that `pad` is injective.
- `Layout` (`layout.dfy`): the numbering scheme on plain values.
  - `Href` and `SectionId`.
  - `Offset(counts, i)`: the number of articles before section `i`.
  - `Table(counts)`: the play orders each section's articles receive.
  - `Flatten`: reading order.
  - Proofs that play orders are contiguous from zero in reading order and
    that hrefs are distinct.
- `Periodize` (`periodize.dfy`): the structs and the `prepare` methods.
  - `Article` and `Section` are records (Go struct values), held in sequences.
  - `Issue` is a class whose `Prepare` method updates its fields in place.
  - `Section.Prepare` runs the per-article loop.
  - `Issue.Prepare` applies the two defaults. It then calls
    `Issue.PrepareSections`, which runs the per-section loop with a running
    counter.
  - Each is proved equal to a specification function
    (`Section.Prepared`, `PreparedSections`), and lemmas prove what the layout
    promises about those functions.

The call `rand.Int()` is a parameter `randomInt: nat` of `Issue.Prepare`.
`createBlankCover` becomes the value `BlankWhite(600, 800)`. The writer that
`generateContent` writes to is a `Sink` object that keeps everything written.

An empty section behaves differently from the general statement that play
orders strictly increase through the issue. Such a section receives the
running counter unchanged. When a later section has articles, the empty
section shares its play order and href with the first of them. When no later
section has articles, its play order is the total number of articles. That
href names no article file, yet the navigation document links to it
(templates.go:90). The model follows the code here:

- `PreparedSectionOrder` states exactly when two sections share a play order,
  and exactly when they share an href.
- `TrailingEmptySectionOrder` and `TrailingEmptySectionHref` state the case
  with no later articles.

## Model

| member | source | states |
|---|---|---|
| Format.Decimal | periodize.go:175 | the numeral `strconv.Itoa` and `%d` print is a non-empty string of digits that starts with '0' exactly when the number is zero; `DecimalValue`, `DecimalOfValue` and `DecimalInjective` give its round trip |
| Format.DecimalValue | periodize.go:175 | reading back the numeral `strconv.Itoa` prints for `n` gives `n` |
| Format.DecimalOfValue | periodize.go:190 | every canonical numeral (no leading zero unless it is "0") is the one printed for its value |
| Format.DecimalInjective | periodize.go:190 | distinct numbers get distinct numerals, and equal ones the same |
| Format.DecimalLength | periodize.go:205-207 | the numeral of `n` fits in `w` characters exactly when `n < 10^w` |
| Format.Pad | periodize.go:205-207 | `pad(n)` is as long as the numeral of `n`, and six characters when that numeral is shorter; `PadValue`, `PadSmall`, `PadLarge` and `PadInjective` give its digits, value and injectivity |
| Format.PadValue | periodize.go:205-207 | `pad(n)` is at least six characters, all digits, and denotes `n` |
| Format.PadSmall | periodize.go:205-207 | below one million, `pad(n)` is exactly six digits denoting `n` |
| Format.PadLarge | periodize.go:205-207 | from one million on, `pad(n)` is the plain numeral of `n`, longer than six, never truncated |
| Format.PadInjective | periodize.go:205-207 | `pad(m) == pad(n)` exactly when `m == n` |
| Format.PadExamplesOneTwo | periodize_test.go:204-222 | `pad(1) == "000001"` and `pad(12) == "000012"` |
| Format.PadExamplesThreeFour | periodize_test.go:204-222 | `pad(123) == "000123"` and `pad(1234) == "001234"` |
| Format.PadExampleFive | periodize_test.go:204-222 | `pad(12345) == "012345"` |
| Format.PadExampleSix | periodize_test.go:204-222 | `pad(123456) == "123456"`: a six-digit number gets no padding |
| Layout.Href | periodize.go:200-203 | the file name of play order `p` is `pad(p)` followed by ".html"; `HrefInjective` gives its injectivity |
| Layout.SectionId | periodize.go:190 | the identifier of section `i` is "section-" followed by the numeral of `i`; `SectionIdInjective` gives its injectivity |
| Layout.Offset | periodize.go:182-186 | the value of the running counter when section `i` is prepared: 0 at the first section and the total number of articles after the last; `OffsetStep`, `OffsetMonotone` and `OffsetPastLast` give its steps |
| Layout.HrefInjective | periodize.go:200-203 | two play orders get the same file name exactly when they are equal |
| Layout.SectionIdInjective | periodize.go:190 | two section positions get the same `section-%d` identifier exactly when they are equal |
| Layout.OffsetStep | periodize.go:184-185 | after section `i`, the counter has grown by exactly that section's article count |
| Layout.OffsetMonotone | periodize.go:182-186 | the counter never decreases across sections, and it stays the same exactly when every section crossed is empty |
| Layout.OffsetPastLast | periodize.go:182-186 | when every section from `i` on is empty, the counter at section `i` is the total number of articles |
| Layout.ArticleBeforeSection | periodize.go:182-186 | every article of a section before section `i` gets a play order below section `i`'s |
| Layout.ReadingOrderContiguous | periodize.go:182-186 | the play orders of the layout table, read section by section, are exactly 0, 1, ..., N-1 |
| Layout.ArticleHrefsDistinct | periodize.go:104-106 | articles at different positions get different play orders and different file names, so no article file overwrites another |
| Layout.TwoByTwoExample | periodize_test.go:224-265 | for two sections of two articles the play orders are [[0, 1], [2, 3]], and the section identifiers are "section-0" and "section-1" |
| Periodize.Article.Prepare | periodize.go:200-203 | the prepared article has play order `p` and href `pad(p) + ".html"`, and keeps its title, author and content |
| Periodize.Article.GenerateContent | periodize.go:169-171 | the writer receives exactly the article's content, appended to what it held |
| Periodize.PrepareOverwrites | periodize.go:200-203 | preparing again with `q` gives the same article as preparing once with `q`: both derived fields are overwritten |
| Periodize.PrepareInjective | periodize.go:200-203 | two preparations of an article agree, and give the same href, exactly when their play orders agree |
| Periodize.PrepareArticleExample | periodize_test.go:297-310 | prepared with 0 the href is "000000.html"; prepared again with 123 it is "000123.html" |
| Periodize.Section.Prepared | periodize.go:189-198 | the prepared section keeps its title and article count, is identified as `section-<index>`, has play order `p` and href `pad(p) + ".html"`, and its article `j` is that article prepared with `p + j` |
| Periodize.Section.Prepare | periodize.go:189-198 | the loop over the articles produces exactly `Prepared(sectionIndex, p)` |
| Periodize.SectionSharesFirstArticle | periodize.go:192-196 | a prepared section with articles has the play order and href of its first article, and its articles' play orders are p, p+1, ... |
| Periodize.PrepareSectionExample | periodize_test.go:268-295 | section 2 prepared at 123 is "section-2" with "000123.html", and its two articles get 123/"000123.html" and 124/"000124.html" |
| Periodize.PreparedSections | periodize.go:182-186 | section `i` is prepared as section `i`, at the number of articles in the sections before it |
| Periodize.Issue.Prepare | periodize.go:173-187 | a non-empty unique identifier is kept and an empty one becomes the numeral of `randomInt` (so it is never empty); a missing cover becomes the blank 600x800 cover and a present one is kept; the sections become `PreparedSections` of the old ones |
| Periodize.Issue.PrepareSections | periodize.go:182-186 | the loop with the running counter turns the sections into exactly `PreparedSections` of the old ones; its invariant is that the counter at section `i` is the number of articles before it |
| Periodize.PreparedKeepsContent | periodize.go:182-186 | the layout keeps the number of sections, their order, their titles, their article counts, and every article's title, author and content |
| Periodize.PreparedPlayOrders | periodize.go:182-186 | article `j` of section `i` gets the number of articles before section `i` plus `j`, and in reading order the play orders are 0, 1, ..., N-1 |
| Periodize.PreparedSectionIdsUnique | periodize.go:190 | after the layout, sections at distinct positions have distinct identifiers |
| Periodize.PreparedArticlesUnique | periodize.go:104-106 | after the layout, articles at distinct positions have distinct play orders and hrefs, so no article file overwrites another |
| Periodize.PreparedSectionOrder | periodize.go:182-186 | section play orders never decrease, and two sections share a play order, and likewise an href, exactly when every section from the first up to the second is empty |
| Periodize.TrailingEmptySectionOrder | periodize.go:182-186 | a section with no articles from it to the end of the issue gets the total number of articles as its play order |
| Periodize.TrailingEmptySectionHref | periodize.go:182-198 | such a section's href is that of no article, so it names no file written at periodize.go:104-116 |
| Periodize.SectionPreparedIdempotent | periodize.go:189-198 | preparing a prepared section again with the same numbers changes nothing |
| Periodize.PreparedIdempotent | periodize.go:173-187 | laying out an already laid-out issue again changes none of its sections |
| Periodize.PrepareIssueExample | periodize_test.go:224-265 | for two sections of two articles: identifiers "section-0" and "section-1", each section sharing its first article's play order and href, article play orders 0 to 3 and hrefs "000000.html" to "000003.html" |

## Left out

- `GenerateMobi` (periodize.go:63-151): temporary directory and file creation, closing, `io.Copy` of the cover, running `kindlegen`, and returning its output. This is filesystem and process I/O. Only the fact that article file names are distinct is stated (`PreparedArticlesUnique`).
- `generateOpf`, `generateTableOfContents`, `generateNav` and the templates in templates.go: their output is produced by `html/template`, which is not part of this model.
- `createBlankCover`: the image and its GIF encoding come from foreign libraries. The cover is the value `BlankWhite(600, 800)`, and a supplied cover is opaque bytes.
- `rand.Int()`: its randomness is not modelled. The value is the parameter `randomInt`, a natural number because `rand.Int` never returns a negative one.
- Negative play orders and section indices: play orders come from a counter starting at 0, so they are `nat`. The `%06d` form of a negative number is not modelled.
- Periodize.Article.GenerateContent: writes the content as characters. The conversion of the Go string to UTF-8 bytes is not modelled. The writer is a `Sink` that never fails. The source ignores the count and error that `Write` returns (periodize.go:170), so a short or failed write is lost without notice. The model does not capture that loss.
- Periodize.Article.Prepare: the Go method assigns two fields of `sect.Articles[i]` in place. Here it returns the updated article value, which `Section.Prepare` stores back at position `i`.
- Periodize.Section.Prepare: the Go method updates `iss.Sections[i]` in place through its receiver. Here it returns the updated section value, and `Issue.PrepareSections` stores that value back at position `i`.
- Periodize.Issue.Prepare: the section loop of `Issue.prepare` is the separate method `Issue.PrepareSections`, which `Prepare` calls after the two defaults. The steps and their order are the same.
- The local counter of `Issue.prepare` is not visible after the call. Its value at each step is stated by the loop invariant `playOrder == Offset(counts, i)` of `Issue.PrepareSections`, together with `Layout.OffsetStep`.
- Shared article storage: in Go, `Section.Articles` is a slice, so two sections (or overlapping sub-slices) can share one backing array. `Section.prepare` writes through that array (periodize.go:194-196), and the later section's numbering wins. Article files are then created twice under the same name (periodize.go:104-106). The model gives every section its own sequence of articles. It therefore assumes no two sections share an `Articles` backing array, which matches the design's rule that each article belongs to exactly one section. `SectionSharesFirstArticle`, `PreparedPlayOrders`, `PreparedArticlesUnique` and `TrailingEmptySectionHref` hold, as stated about the layout, only under that assumption.
