// What the page loop of dmfs_parse reads and what it leaves in the table:
// which pages can influence the result, the small-file case, and how lines
// turn into segments and errors across pages.

module DriverProps {
  import opened DmTypes
  import opened LineParser
  import opened Reassembly
  import opened Driver
  import opened ReassemblyProps

  /** The two page maps hold the same thing at index k. */
  predicate SameAt(pages1: map<nat, PageStatus>, pages2: map<nat, PageStatus>, k: nat)
  {
    (k in pages1 <==> k in pages2) && (k in pages1 ==> pages1[k] == pages2[k])
  }

  /** A round reads only the page at its own index. */
  lemma PageStepFrame(p: Progress, index: Offset, endIndex: Offset, endOffset: nat,
                      pages1: map<nat, PageStatus>, pages2: map<nat, PageStatus>, outcomes: Outcomes)
    requires Running(p) && endOffset < PAGE_CACHE_SIZE && WellSized(pages1) && WellSized(pages2)
    requires SameAt(pages1, pages2, index)
    ensures PageStep(p, index, endIndex, endOffset, pages1, outcomes) ==
      PageStep(p, index, endIndex, endOffset, pages2, outcomes)
  {
  }

  /**
   * `left` rounds from `index`, while the index does not wrap, read only the
   * pages at index .. index + left - 1.
   */
  lemma {:induction false} WalkPagesFrame(p: Progress, index: Offset, left: nat, endIndex: Offset, endOffset: nat,
                                          pages1: map<nat, PageStatus>, pages2: map<nat, PageStatus>,
                                          outcomes: Outcomes)
    requires Running(p) && endOffset < PAGE_CACHE_SIZE && WellSized(pages1) && WellSized(pages2)
    requires index + left <= ULONG_MODULUS
    requires forall k :: index <= k < index + left ==> SameAt(pages1, pages2, k)
    ensures WalkPages(p, index, left, endIndex, endOffset, pages1, outcomes) ==
      WalkPages(p, index, left, endIndex, endOffset, pages2, outcomes)
    decreases left
  {
    if left > 0 {
      assert SameAt(pages1, pages2, index);
      PageStepFrame(p, index, endIndex, endOffset, pages1, pages2, outcomes);
      var p1 := PageStep(p, index, endIndex, endOffset, pages1, outcomes);
      var next := (index + 1) % ULONG_MODULUS;
      WalkPagesUnfold(p, p1, index, left, endIndex, endOffset, pages1, outcomes);
      WalkPagesUnfold(p, p1, index, left, endIndex, endOffset, pages2, outcomes);
      if p1.stop == Finished && left > 1 {
        assert next == index + 1;
        WalkPagesFrame(p1, next, left - 1, endIndex, endOffset, pages1, pages2, outcomes);
      }
    }
  }

  /**
   * When the file is at least one page long, dmfs_parse reads only the pages
   * below end_index: the page at end_index, which holds the last end_offset
   * bytes of the file, and every page after it make no difference.
   */
  lemma PagesFromEndIndexIgnored(s: State, scratch: seq<char>, iSize: nat,
                                 pages1: map<nat, PageStatus>, pages2: map<nat, PageStatus>, outcomes: Outcomes)
    requires |scratch| == PAGE_SIZE && WellSized(pages1) && WellSized(pages2)
    requires EndIndex(iSize) >= 1
    requires forall k: nat :: k < EndIndex(iSize) ==> SameAt(pages1, pages2, k)
    ensures ParseWalk(s, scratch, iSize, pages1, outcomes) == ParseWalk(s, scratch, iSize, pages2, outcomes)
  {
    WalkPagesFrame(Progress(s, scratch, 0, 0, Finished), 0, EndIndex(iSize), EndIndex(iSize), EndOffset(iSize),
                   pages1, pages2, outcomes);
  }

  /** Rounds at indices with no page change nothing. */
  lemma {:induction false} NoPagesNoChange(p: Progress, index: Offset, left: nat, endIndex: Offset, endOffset: nat,
                                           pages: map<nat, PageStatus>, outcomes: Outcomes)
    requires Running(p) && endOffset < PAGE_CACHE_SIZE && WellSized(pages)
    requires index + left <= ULONG_MODULUS
    requires forall k :: index <= k < index + left ==> k !in pages
    ensures WalkPages(p, index, left, endIndex, endOffset, pages, outcomes) == p
    decreases left
  {
    if left > 0 {
      assert index !in pages;
      var next := (index + 1) % ULONG_MODULUS;
      WalkPagesUnfold(p, p, index, left, endIndex, endOffset, pages, outcomes);
      if left > 1 {
        assert next == index + 1;
        NoPagesNoChange(p, next, left - 1, endIndex, endOffset, pages, outcomes);
      }
    }
  }

  /**
   * A file shorter than a page, with no page cached past page 0: the loop
   * goes round the whole index space, but only page 0 is read, and only its
   * first i_size bytes.
   */
  lemma SmallFile(s: State, scratch: seq<char>, iSize: nat, pages: map<nat, PageStatus>, outcomes: Outcomes)
    requires |scratch| == PAGE_SIZE && WellSized(pages)
    requires 0 < iSize < PAGE_CACHE_SIZE && forall k :: k in pages ==> k == 0
    ensures var p := Progress(s, scratch, 0, 0, Finished);
      ParseWalk(s, scratch, iSize, pages, outcomes) == PageStep(p, 0, 0, iSize, pages, outcomes)
  {
    var p := Progress(s, scratch, 0, 0, Finished);
    assert EndIndex(iSize) == 0 && EndOffset(iSize) == iSize;
    var p1 := PageStep(p, 0, 0, iSize, pages, outcomes);
    if p1.stop == Finished {
      NoPagesNoChange(p1, 1, ULONG_MODULUS - 1, 0, iSize, pages, outcomes);
    }
  }

  /** The state a round or walk leaves, without the "Line too long" error a failed dmfs_parse_page adds last. */
  function LineEffect(r: Progress): State
  {
    if r.stop == ParseError && |r.state.errors| > 0 then r.state.(errors := r.state.errors[..|r.state.errors| - 1])
    else r.state
  }

  /** Growth by no lines is no change. */
  lemma GrowsNone(s: State, num: nat)
    ensures Grows(s, s, num, 0)
  {
  }

  /**
   * From `p` to `r` the line count only grows; each line read in between
   * added one segment or recorded one error numbered within those lines,
   * and segments and errors recorded earlier stay; when a line overflowed
   * the scratch page, "Line too long" is the one error beyond that, last,
   * at the final line number.
   */
  predicate GrowsTo(p: Progress, r: Progress)
  {
    r.num >= p.num && Grows(p.state, LineEffect(r), p.num, r.num - p.num) &&
    (r.stop == ParseError ==>
       |r.state.errors| > 0 && r.state.errors[|r.state.errors| - 1] == ErrorRecord(r.num, TOO_LONG))
  }

  /**
   * A round either stops at a page not up to date, changing nothing, or
   * parses the page's lines; dmfs_parse_page failing adds "Line too long"
   * at the line number after them.
   */
  lemma PageStepGrows(p: Progress, index: Offset, endIndex: Offset, endOffset: nat,
                      pages: map<nat, PageStatus>, outcomes: Outcomes)
    requires Running(p) && endOffset < PAGE_CACHE_SIZE && WellSized(pages)
    ensures GrowsTo(p, PageStep(p, index, endIndex, endOffset, pages, outcomes))
  {
    var r := PageStep(p, index, endIndex, endOffset, pages, outcomes);
    if index in pages && pages[index].Uptodate? {
      var end := if index == endIndex then endOffset else PAGE_CACHE_SIZE;
      var ra := Reassemble(p.buf, p.tmpl, pages[index].data[..end]);
      ParsedPageGrows(p, ra, r, outcomes);
    } else {
      GrowsNone(p.state, p.num);
    }
  }

  /** PageStepGrows for a page that is parsed, given what dmfs_parse_page made of it. */
  lemma ParsedPageGrows(p: Progress, ra: Reassembled, r: Progress, outcomes: Outcomes)
    requires r == Progress(PageEffect(p.state, p.num, ra, outcomes), ra.buf, ra.tmpl, p.num + |ra.lines|,
                           if ra.tooLong then ParseError else Finished)
    ensures GrowsTo(p, r)
  {
    var s1 := ApplyLines(p.state, p.num, ra.lines, outcomes);
    ApplyLinesEffect(p.state, p.num, ra.lines, outcomes);
    if ra.tooLong {
      assert r.state == Reject(s1, r.num, TOO_LONG);
      assert LineEffect(r) == s1;
    }
  }

  /** Growth from `p` to `p1`, which finished its round, then from `p1` to `r`, is growth from `p` to `r`. */
  lemma GrowsToTrans(p: Progress, p1: Progress, r: Progress)
    requires GrowsTo(p, p1) && p1.stop == Finished && GrowsTo(p1, r)
    ensures GrowsTo(p, r)
  {
    GrowsTrans(p.state, p1.state, LineEffect(r), p.num, p1.num - p.num, r.num - p1.num);
  }

  /**
   * The first of `left` rounds: when it does not finish, the walk ends
   * there; when it does, growth over the rounds after it is growth over the
   * whole walk.
   */
  lemma WalkRound(p: Progress, index: Offset, left: nat, endIndex: Offset, endOffset: nat,
                  pages: map<nat, PageStatus>, outcomes: Outcomes) returns (p1: Progress, next: Offset)
    requires Running(p) && endOffset < PAGE_CACHE_SIZE && WellSized(pages) && left > 0
    ensures p1 == PageStep(p, index, endIndex, endOffset, pages, outcomes) && next == (index + 1) % ULONG_MODULUS
    ensures p1.stop != Finished ==> GrowsTo(p, WalkPages(p, index, left, endIndex, endOffset, pages, outcomes))
    ensures p1.stop == Finished ==> Running(p1)
    ensures p1.stop == Finished && GrowsTo(p1, WalkPages(p1, next, left - 1, endIndex, endOffset, pages, outcomes)) ==>
      GrowsTo(p, WalkPages(p, index, left, endIndex, endOffset, pages, outcomes))
  {
    p1 := PageStep(p, index, endIndex, endOffset, pages, outcomes);
    next := (index + 1) % ULONG_MODULUS;
    PageStepGrows(p, index, endIndex, endOffset, pages, outcomes);
    WalkPagesUnfold(p, p1, index, left, endIndex, endOffset, pages, outcomes);
    if p1.stop == Finished {
      var r := WalkPages(p1, next, left - 1, endIndex, endOffset, pages, outcomes);
      if GrowsTo(p1, r) {
        GrowsToTrans(p, p1, r);
      }
    }
  }

  /**
   * Across the whole walk, each line read either added one segment or
   * recorded one error numbered within the lines read, and segments and
   * errors recorded earlier stay; when a line overflowed the scratch page,
   * "Line too long" is the one error beyond that, at the final line number.
   */
  lemma {:induction false} WalkPagesGrows(p: Progress, index: Offset, left: nat, endIndex: Offset, endOffset: nat,
                                          pages: map<nat, PageStatus>, outcomes: Outcomes)
    requires Running(p) && endOffset < PAGE_CACHE_SIZE && WellSized(pages)
    ensures GrowsTo(p, WalkPages(p, index, left, endIndex, endOffset, pages, outcomes))
    decreases left
  {
    if left == 0 {
      GrowsNone(p.state, p.num);
    } else {
      var p1, next := WalkRound(p, index, left, endIndex, endOffset, pages, outcomes);
      if p1.stop == Finished {
        WalkPagesGrows(p1, next, left - 1, endIndex, endOffset, pages, outcomes);
      }
    }
  }

  /**
   * A round on a parsed page other than the one at end_index either fails
   * with "Line too long" or completes at least one line. Every page but that
   * one is whole, so a carry that dmfs_parse_page leaves is never extended
   * by the next page without a newline: the overwrite of *tmpl that
   * CarryLengthOverwritten shows cannot happen within dmfs_parse.
   */
  lemma WholePageRound(p: Progress, index: Offset, endIndex: Offset, endOffset: nat,
                       pages: map<nat, PageStatus>, outcomes: Outcomes)
    requires Running(p) && endOffset < PAGE_CACHE_SIZE && WellSized(pages)
    requires index != endIndex && index in pages && pages[index].Uptodate?
    ensures var r := PageStep(p, index, endIndex, endOffset, pages, outcomes);
      r.stop == ParseError || r.num > p.num
  {
    var data := pages[index].data;
    assert data[..PAGE_CACHE_SIZE] == data;
    FullPageFirstRound(p.buf, p.tmpl, data);
  }
}
