/**
 * `generate_pages`: the loaded records cut into consecutive pages of at most
 * 21 labels, each page wrapped in a fixed A4 page container.
 */
module Paginator {
  import opened Text
  import opened Loader

  const LabelsPerPage: nat := 21

  /** The page container's capacity attribute; it never changes with the page's contents. */
  const CapacityAttribute: string := "data-labels-no=\"21\""

  const PageOpenBeforeCapacity: string :=
    "\n" + Indent(8) + "<div class=\"a4-page\">\n" + Indent(12) + "<div class=\"labels\" "
  const PageOpen: string := PageOpenBeforeCapacity + (CapacityAttribute + ">")
  const PageClose: string := "\n" + Indent(12) + "</div>\n" + Indent(8) + "</div>"

  /** One page: its labels inside the page container. */
  function PageHtml(labels: string): string
  {
    PageOpen + labels + PageClose
  }

  /** The labels of `rs` as `render` renders them, one after the other in order. */
  function LabelsHtml(rs: seq<Record>, render: Record -> string): string
  {
    if rs == [] then "" else LabelsHtml(rs[..|rs| - 1], render) + render(rs[|rs| - 1])
  }

  /** `(n + 21 - 1) // 21`. */
  function PageCount(n: nat): nat
  {
    (n + LabelsPerPage - 1) / LabelsPerPage
  }

  function Min(a: int, b: int): int
  {
    if a < b then a else b
  }

  /** The rows page `k` holds: `df.iloc[21k : min(21k + 21, n)]`. */
  function PageRows(rs: seq<Record>, k: nat): seq<Record>
    requires k * LabelsPerPage < |rs|
  {
    rs[k * LabelsPerPage .. Min(k * LabelsPerPage + LabelsPerPage, |rs|)]
  }

  /** The page markup of each group, in order. */
  function RenderPages(groups: seq<seq<Record>>, render: Record -> string): seq<string>
  {
    seq(|groups|, k requires 0 <= k < |groups| => PageHtml(LabelsHtml(groups[k], render)))
  }

  /** The records, cut into consecutive groups of 21; the last may be shorter. */
  function Chunks(rs: seq<Record>): seq<seq<Record>>
    decreases |rs|
  {
    if rs == [] then []
    else if |rs| <= LabelsPerPage then [rs]
    else [rs[..LabelsPerPage]] + Chunks(rs[LabelsPerPage..])
  }

  /** The groups joined back together. */
  function Flatten(groups: seq<seq<Record>>): seq<Record>
  {
    if groups == [] then [] else groups[0] + Flatten(groups[1..])
  }

  /** The page count is the ceiling of n / 21: enough pages for all rows, and no empty page. */
  lemma PageCountIsCeiling(n: nat)
    ensures PageCount(n) * LabelsPerPage >= n
    ensures n > 0 ==> (PageCount(n) - 1) * LabelsPerPage < n
    ensures n == 0 <==> PageCount(n) == 0
  {
    var q, r := (n + 20) / 21, (n + 20) % 21;
    assert n + 20 == 21 * q + r && 0 <= r < 21;
  }

  /** A page number below the page count starts inside the rows. */
  lemma PageStartInRange(k: nat, n: nat)
    requires k < PageCount(n)
    ensures k * LabelsPerPage < n
  {
    PageCountIsCeiling(n);
    assert (k + 1) * 21 <= PageCount(n) * 21;
  }

  /** There are `PageCount(|rs|)` groups, and group k holds exactly the rows `21k .. min(21k + 21, |rs|)`. */
  lemma {:induction false} ChunksAreSlices(rs: seq<Record>)
    ensures |Chunks(rs)| == PageCount(|rs|)
    ensures forall k :: 0 <= k < |Chunks(rs)| ==>
      k * LabelsPerPage < |rs| && Chunks(rs)[k] == PageRows(rs, k)
    decreases |rs|
  {
    if |rs| > LabelsPerPage {
      var tail := rs[LabelsPerPage..];
      ChunksAreSlices(tail);
      forall k | 1 <= k < |Chunks(rs)|
        ensures k * LabelsPerPage < |rs| && Chunks(rs)[k] == PageRows(rs, k)
      {
        var j := k - 1;
        assert Chunks(rs)[k] == Chunks(tail)[j];
        assert j * LabelsPerPage + LabelsPerPage == k * LabelsPerPage;
      }
    }
  }

  /** Every group but the last is full; the last holds between 1 and 21 rows. */
  lemma {:induction false} ChunkSizes(rs: seq<Record>)
    ensures forall k :: 0 <= k < |Chunks(rs)| - 1 ==> |Chunks(rs)[k]| == LabelsPerPage
    ensures |Chunks(rs)| > 0 ==> 0 < |Chunks(rs)[|Chunks(rs)| - 1]| <= LabelsPerPage
    decreases |rs|
  {
    if |rs| > LabelsPerPage {
      ChunkSizes(rs[LabelsPerPage..]);
    }
  }

  /** Joining the groups gives back every row, in the original order. */
  lemma {:induction false} FlattenChunks(rs: seq<Record>)
    ensures Flatten(Chunks(rs)) == rs
    decreases |rs|
  {
    if |rs| > LabelsPerPage {
      FlattenChunks(rs[LabelsPerPage..]);
      assert rs == rs[..LabelsPerPage] + rs[LabelsPerPage..];
    } else if rs != [] {
      assert Flatten([rs]) == rs + Flatten([]);
    }
  }

  lemma {:induction false} LabelsHtmlAppend(a: seq<Record>, b: seq<Record>, render: Record -> string)
    ensures LabelsHtml(a + b, render) == LabelsHtml(a, render) + LabelsHtml(b, render)
    decreases |b|
  {
    if b == [] {
      assert a + b == a;
    } else {
      var b' := b[..|b| - 1];
      assert (a + b)[..|a + b| - 1] == a + b';
      LabelsHtmlAppend(a, b', render);
    }
  }

  /** The labels of all pages, read in page order, are the labels of all records in order. */
  lemma {:induction false} PagesCarryAllLabels(groups: seq<seq<Record>>, render: Record -> string)
    ensures LabelsHtml(Flatten(groups), render) == JoinLabels(groups, render)
  {
    if groups != [] {
      PagesCarryAllLabels(groups[1..], render);
      LabelsHtmlAppend(groups[0], Flatten(groups[1..]), render);
    }
  }

  /** The labels of each group, concatenated in group order. */
  function JoinLabels(groups: seq<seq<Record>>, render: Record -> string): string
  {
    if groups == [] then "" else LabelsHtml(groups[0], render) + JoinLabels(groups[1..], render)
  }

  /** Every page carries the capacity attribute 21, whatever its number of labels. */
  lemma CapacityIsConstant(labels: string)
    ensures HasPrefix(PageHtml(labels)[|PageOpenBeforeCapacity|..], CapacityAttribute)
  {
    var rest := (CapacityAttribute + ">") + (labels + PageClose);
    assert PageHtml(labels) == PageOpenBeforeCapacity + rest;
    assert PageHtml(labels)[|PageOpenBeforeCapacity|..] == rest;
  }

  lemma PagesFollowChunks(records: seq<Record>, render: Record -> string, pages: seq<string>)
    requires |pages| == PageCount(|records|)
    requires forall k :: 0 <= k < |pages| ==>
      k * LabelsPerPage < |records| && pages[k] == PageHtml(LabelsHtml(PageRows(records, k), render))
    ensures pages == RenderPages(Chunks(records), render)
  {
    ChunksAreSlices(records);
  }

  /**
   * `generate_pages`: one page per group of 21 records, in order, together
   * with the page count. `render` renders one record; the document passes
   * `create_label_html` (`Label.RecordLabel`).
   */
  method GeneratePages(records: seq<Record>, render: Record -> string) returns (pages: seq<string>, totalPages: nat)
    ensures totalPages == PageCount(|records|) && |pages| == totalPages
    ensures forall k :: 0 <= k < totalPages ==>
      k * LabelsPerPage < |records| && pages[k] == PageHtml(LabelsHtml(PageRows(records, k), render))
    ensures pages == RenderPages(Chunks(records), render)
  {
    var totalProducts := |records|;
    totalPages := (totalProducts + LabelsPerPage - 1) / LabelsPerPage;
    pages := [];
    for pageNum := 0 to totalPages
      invariant |pages| == pageNum
      invariant forall k :: 0 <= k < pageNum ==>
        k * LabelsPerPage < totalProducts && pages[k] == PageHtml(LabelsHtml(PageRows(records, k), render))
    {
      PageStartInRange(pageNum, totalProducts);
      var startIdx := pageNum * LabelsPerPage;
      var endIdx := Min(startIdx + LabelsPerPage, totalProducts);
      var pageProducts := records[startIdx..endIdx];
      assert pageProducts == PageRows(records, pageNum);
      var labelsHtml := "";
      for i := 0 to |pageProducts|
        invariant labelsHtml == LabelsHtml(pageProducts[..i], render)
      {
        assert pageProducts[..i + 1][..i] == pageProducts[..i];
        labelsHtml := labelsHtml + render(pageProducts[i]);
      }
      assert pageProducts[..|pageProducts|] == pageProducts;
      ghost var done := pages;
      pages := pages + [PageHtml(labelsHtml)];
      forall k | 0 <= k < pageNum + 1
        ensures k * LabelsPerPage < totalProducts && pages[k] == PageHtml(LabelsHtml(PageRows(records, k), render))
      {
        if k < pageNum {
          assert pages[k] == done[k];
        }
      }
    }
    PagesFollowChunks(records, render, pages);
  }
}
