// dmfs_parse feeds whole pages to dmfs_parse_page one after the other with
// one scratch page and one carry: reassembly carried from page to page is
// reassembly of the pages' concatenated bytes, so page boundaries change
// neither the lines completed nor whether one is too long.

module PagesProps {
  import opened DmTypes
  import opened Reassembly
  import opened ReassemblyProps
  import opened Driver

  /** Every index from k up to n holds a page that is up to date. */
  predicate AllUptodate(pages: map<nat, PageStatus>, k: nat, n: nat)
  {
    forall i :: k <= i < n ==> i in pages && pages[i].Uptodate?
  }

  /** The bytes of the pages at k .. n - 1, in order. */
  function FileText(pages: map<nat, PageStatus>, k: nat, n: nat): (text: seq<char>)
    requires WellSized(pages) && k <= n && AllUptodate(pages, k, n)
    ensures k < n ==> |text| >= PAGE_CACHE_SIZE
    decreases n - k
  {
    if k == n then [] else pages[k].data + FileText(pages, k + 1, n)
  }

  /** The text after `d` from page k on is page k's bytes, then the text from page k + 1 on. */
  lemma FileTextStep(pages: map<nat, PageStatus>, k: nat, n: nat, d: seq<char>, text: seq<char>)
    requires WellSized(pages) && k < n && AllUptodate(pages, k, n) && text == d + FileText(pages, k, n)
    ensures text == (d + pages[k].data) + FileText(pages, k + 1, n)
  {
    assert FileText(pages, k, n) == pages[k].data + FileText(pages, k + 1, n);
  }

  /**
   * Reassembly carried on page by page from `r`: each whole page at
   * k .. n - 1 is reassembled from the buffer and carry the one before it
   * left, until one overflows.
   */
  function ReassemblePages(r: Reassembled, pages: map<nat, PageStatus>, k: nat, n: nat): (q: Reassembled)
    requires |r.buf| == PAGE_SIZE && r.tmpl <= PAGE_SIZE - 2
    requires WellSized(pages) && k <= n && AllUptodate(pages, k, n)
    ensures |q.buf| == PAGE_SIZE && q.tmpl <= PAGE_SIZE - 2
    decreases n - k
  {
    if k == n || r.tooLong then r
    else ReassemblePages(AfterLines(r.lines, Reassemble(r.buf, r.tmpl, pages[k].data)), pages, k + 1, n)
  }

  /** Reassembly results a caller cannot tell apart stay so over further pages. */
  lemma PagesSameOutcome(a: Reassembled, b: Reassembled, pages: map<nat, PageStatus>, k: nat, n: nat)
    requires |a.buf| == PAGE_SIZE && a.tmpl <= PAGE_SIZE - 2 && |b.buf| == PAGE_SIZE && b.tmpl <= PAGE_SIZE - 2
    requires WellSized(pages) && k <= n && AllUptodate(pages, k, n) && SameOutcome(a, b)
    ensures SameOutcome(ReassemblePages(a, pages, k, n), ReassemblePages(b, pages, k, n))
  {
    if !a.tooLong {
      assert a == b;
    }
  }

  /**
   * Reassembling page k after `r`, which reassembled the text `d` and did
   * not overflow, is reassembling `d` and page k as one text; the pages
   * after k go on from there.
   */
  lemma PageAfter(scratch: seq<char>, d: seq<char>, r: Reassembled, pages: map<nat, PageStatus>, k: nat, n: nat)
    returns (d1: seq<char>, r1: Reassembled, q: Reassembled)
    requires |scratch| == PAGE_SIZE && WellSized(pages) && k < n && AllUptodate(pages, k, n)
    requires r == Reassemble(scratch, 0, d) && !r.tooLong
    ensures d1 == d + pages[k].data && r1 == Reassemble(scratch, 0, d1)
    ensures |q.buf| == PAGE_SIZE && q.tmpl <= PAGE_SIZE - 2 && SameOutcome(r1, q)
    ensures ReassemblePages(r, pages, k, n) == ReassemblePages(q, pages, k + 1, n)
  {
    d1 := d + pages[k].data;
    r1 := Reassemble(scratch, 0, d1);
    q := AfterLines(r.lines, Reassemble(r.buf, r.tmpl, pages[k].data));
    ReassembleConcat(scratch, d, pages[k].data);
  }

  /**
   * One page further into the text: when PagesConcat holds from page k + 1
   * after `d` and page k, it holds from page k after `d`.
   */
  lemma NextPage(scratch: seq<char>, d: seq<char>, text: seq<char>, r: Reassembled,
                 pages: map<nat, PageStatus>, k: nat, n: nat)
    returns (d1: seq<char>, r1: Reassembled)
    requires |scratch| == PAGE_SIZE && WellSized(pages) && k < n && AllUptodate(pages, k, n)
    requires r == Reassemble(scratch, 0, d) && !r.tooLong && text == d + FileText(pages, k, n)
    ensures r1 == Reassemble(scratch, 0, d1) && text == d1 + FileText(pages, k + 1, n)
    ensures SameOutcome(Reassemble(scratch, 0, text), ReassemblePages(r1, pages, k + 1, n)) ==>
      SameOutcome(Reassemble(scratch, 0, text), ReassemblePages(r, pages, k, n))
  {
    var q;
    d1, r1, q := PageAfter(scratch, d, r, pages, k, n);
    FileTextStep(pages, k, n, d, text);
    PagesSameOutcome(r1, q, pages, k + 1, n);
  }

  /**
   * Reassembling whole pages one after the other, after the text `d`, is
   * reassembling `d` followed by the pages' bytes as one text.
   */
  lemma {:induction false} PagesConcat(scratch: seq<char>, d: seq<char>, text: seq<char>, r: Reassembled,
                                       pages: map<nat, PageStatus>, k: nat, n: nat)
    requires |scratch| == PAGE_SIZE && WellSized(pages) && k <= n && AllUptodate(pages, k, n)
    requires r == Reassemble(scratch, 0, d) && text == d + FileText(pages, k, n)
    ensures SameOutcome(Reassemble(scratch, 0, text), ReassemblePages(r, pages, k, n))
    decreases n - k
  {
    if k == n {
      assert text == d;
    } else if r.tooLong {
      ReassembleConcat(scratch, d, FileText(pages, k, n));
    } else {
      var d1, r1 := NextPage(scratch, d, text, r, pages, k, n);
      PagesConcat(scratch, d1, text, r1, pages, k + 1, n);
    }
  }
}
