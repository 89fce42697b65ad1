/** The numbering scheme of the layout pass, stated on values: which play
    order, file name and section identifier each element of an issue gets,
    given only how many articles each section holds. */
module Layout {
  import opened Format

  const HrefSuffix := ".html"
  const SectionIdPrefix := "section-"

  /** The file name of the element with a given play order: `pad(p) + ".html"`. */
  function Href(playOrder: nat): (r: string)
    ensures |r| == |Pad(playOrder)| + |HrefSuffix|
    ensures r[|Pad(playOrder)|..] == HrefSuffix
  {
    Pad(playOrder) + HrefSuffix
  }

  /** `fmt.Sprintf("section-%d", index)`. */
  function SectionId(index: nat): (r: string)
    ensures |r| == |SectionIdPrefix| + |Decimal(index)|
    ensures r[..|SectionIdPrefix|] == SectionIdPrefix
  {
    SectionIdPrefix + Decimal(index)
  }

  /** Distinct play orders get distinct file names, and equal ones the same. */
  lemma HrefInjective(p: nat, q: nat)
    ensures Href(p) == Href(q) <==> p == q
  {
    if Href(p) == Href(q) {
      assert Pad(p) == Href(p)[..|Href(p)| - |HrefSuffix|];
      assert Pad(q) == Href(q)[..|Href(q)| - |HrefSuffix|];
      PadInjective(p, q);
    }
  }

  /** Sections at distinct positions get distinct identifiers. */
  lemma SectionIdInjective(i: nat, k: nat)
    ensures SectionId(i) == SectionId(k) <==> i == k
  {
    if SectionId(i) == SectionId(k) {
      assert Decimal(i) == SectionId(i)[|SectionIdPrefix|..];
      assert Decimal(k) == SectionId(k)[|SectionIdPrefix|..];
      DecimalInjective(i, k);
    }
  }

  /** Total number of articles, given the article count of each section. */
  function Sum(counts: seq<nat>): nat {
    if counts == [] then 0 else Sum(counts[..|counts| - 1]) + counts[|counts| - 1]
  }

  /** The play order of section `i`: the number of articles in sections 0..i-1. */
  function Offset(counts: seq<nat>, i: nat): (r: nat)
    requires i <= |counts|
    ensures i == 0 ==> r == 0
    ensures i == |counts| ==> r == Sum(counts)
  {
    assert counts[..|counts|] == counts;
    Sum(counts[..i])
  }

  lemma OffsetStep(counts: seq<nat>, i: nat)
    requires i < |counts|
    ensures Offset(counts, i + 1) == Offset(counts, i) + counts[i]
  {
    assert counts[..i + 1][..i] == counts[..i];
  }

  /** Section play orders never decrease, and two sections share one exactly
      when every section from the first up to (not including) the second is
      empty. */
  lemma {:induction false} OffsetMonotone(counts: seq<nat>, i: nat, k: nat)
    requires i <= k <= |counts|
    ensures Offset(counts, i) <= Offset(counts, k)
    ensures Offset(counts, i) == Offset(counts, k) <==> forall m :: i <= m < k ==> counts[m] == 0
  {
    if i < k {
      OffsetMonotone(counts, i, k - 1);
      OffsetStep(counts, k - 1);
    }
  }

  /** The consecutive numbers start, start + 1, ..., start + n - 1. */
  function Run(start: nat, n: nat): (r: seq<nat>)
    ensures |r| == n
    ensures forall j :: 0 <= j < n ==> r[j] == start + j
  {
    if n == 0 then [] else Run(start, n - 1) + [start + n - 1]
  }

  /** The play orders the layout pass gives to articles: row `i` lists
      those of section `i`, one per article. */
  function Table(counts: seq<nat>): seq<seq<nat>> {
    seq(|counts|, i requires 0 <= i < |counts| => Run(Offset(counts, i), counts[i]))
  }

  /** Section-then-article reading order: the order in which `GenerateMobi`
      writes article files and the templates list them. */
  function Flatten<T>(rows: seq<seq<T>>): seq<T> {
    if rows == [] then [] else Flatten(rows[..|rows| - 1]) + rows[|rows| - 1]
  }

  lemma RunConcat(start: nat, a: nat, b: nat)
    ensures Run(start, a) + Run(start + a, b) == Run(start, a + b)
  {
  }

  lemma TablePrefix(counts: seq<nat>)
    requires |counts| > 0
    ensures Table(counts)[..|counts| - 1] == Table(counts[..|counts| - 1])
  {
    var init := counts[..|counts| - 1];
    forall i | 0 <= i < |init|
      ensures Table(counts)[i] == Table(init)[i]
    {
      assert counts[..i] == init[..i];
    }
  }

  /** In reading order the play orders are exactly 0, 1, ..., N-1 for the N
      articles of the issue: contiguous, strictly increasing, from zero. */
  lemma {:induction false} ReadingOrderContiguous(counts: seq<nat>)
    ensures Flatten(Table(counts)) == Run(0, Sum(counts))
  {
    if counts != [] {
      var n := |counts|;
      var init := counts[..n - 1];
      TablePrefix(counts);
      ReadingOrderContiguous(init);
      assert Table(counts)[n - 1] == Run(Sum(init), counts[n - 1]);
      RunConcat(0, Sum(init), counts[n - 1]);
    }
  }

  /** Two different articles never get the same play order, so they never
      get the same file name. */
  lemma ArticleHrefsDistinct(counts: seq<nat>, i: nat, j: nat, k: nat, l: nat)
    requires i < |counts| && j < counts[i]
    requires k < |counts| && l < counts[k]
    requires i != k || j != l
    ensures Offset(counts, i) + j != Offset(counts, k) + l
    ensures Href(Offset(counts, i) + j) != Href(Offset(counts, k) + l)
  {
    if i < k {
      ArticleBeforeSection(counts, i, j, k);
    } else if k < i {
      ArticleBeforeSection(counts, k, l, i);
    }
    HrefInjective(Offset(counts, i) + j, Offset(counts, k) + l);
  }

  /** Past the last non-empty section the counter equals the total number
      of articles. */
  lemma OffsetPastLast(counts: seq<nat>, i: nat)
    requires i <= |counts|
    requires forall m :: i <= m < |counts| ==> counts[m] == 0
    ensures Offset(counts, i) == Sum(counts)
  {
    OffsetMonotone(counts, i, |counts|);
    assert counts[..|counts|] == counts;
  }

  /** Every article of a section before `i` has a play order below section `i`'s. */
  lemma ArticleBeforeSection(counts: seq<nat>, k: nat, l: nat, i: nat)
    requires k < i <= |counts| && l < counts[k]
    ensures Offset(counts, k) + l < Offset(counts, i)
  {
    OffsetStep(counts, k);
    OffsetMonotone(counts, k + 1, i);
  }

  /** The numbers `TestPrepareIssue` expects for two sections of two articles. */
  lemma TwoByTwoExample()
    ensures Table([2, 2]) == [[0, 1], [2, 3]]
    ensures Offset([2, 2], 0) == 0 && Offset([2, 2], 1) == 2
    ensures SectionId(0) == "section-0" && SectionId(1) == "section-1"
  {
    assert [2, 2][..1] == [2];
    assert Run(0, 2) == [0, 1];
    assert Run(2, 2) == [2, 3];
  }
}
