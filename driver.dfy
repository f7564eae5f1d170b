// dmfs_parse and dmfs_release: walk the page cache of a table file, feed
// every page through dmfs_parse_page with one scratch page and one carry,
// complete the table, and install it in the inode when parsing produced one.
//
// The page cache is a map from page index to the status of the page found
// there (an index with no page is not in the map). Lookups, locking, kmap and
// the page reference counts are not modelled.

module Driver {
  import opened DmTypes
  import opened DmInterfaces
  import opened LineParser
  import opened Reassembly

  /** What __find_page_nolock finds at an index: a page that is not up to date, or one with its bytes. */
  datatype PageStatus = NotUptodate | Uptodate(data: seq<char>)

  /** Every page found holds PAGE_CACHE_SIZE bytes. */
  predicate WellSized(pages: map<nat, PageStatus>)
  {
    forall i :: i in pages && pages[i].Uptodate? ==> |pages[i].data| == PAGE_CACHE_SIZE
  }

  /** The opaque answers of the allocators and of dm_table_complete, the scratch page's initial bytes, and the callbacks' answers per line. */
  datatype Env = Env(pageOk: bool, createOk: bool, completeOk: bool, scratch: seq<char>, outcomes: Outcomes)

  /** Why the page loop stopped: it ran to end_index, met a page not up to date, or dmfs_parse_page failed. */
  datatype Stop = Finished | Broken | ParseError

  /** The loop state of dmfs_parse: table and registry, scratch page, carry, line number, and how it stopped. */
  datatype Progress = Progress(state: State, buf: seq<char>, tmpl: nat, num: nat, stop: Stop)

  /**
   * i_size >> PAGE_CACHE_SHIFT, truncated to unsigned long: for a file of
   * fewer than 2^32 pages, the index of the page holding byte i_size, and
   * with EndOffset it gives back i_size.
   */
  function EndIndex(iSize: nat): (r: Offset)
    ensures iSize < ULONG_MODULUS * PAGE_CACHE_SIZE ==>
      r * PAGE_CACHE_SIZE <= iSize < (r + 1) * PAGE_CACHE_SIZE && r * PAGE_CACHE_SIZE + EndOffset(iSize) == iSize
  {
    (iSize / PAGE_CACHE_SIZE) % ULONG_MODULUS
  }

  /** i_size & (PAGE_CACHE_SIZE - 1). */
  function EndOffset(iSize: nat): (r: nat)
    ensures r < PAGE_CACHE_SIZE
  {
    iSize % PAGE_CACHE_SIZE
  }

  /**
   * How many rounds the do/while loop runs from index 0: up to end_index, or,
   * when end_index is 0, all the way round the unsigned long index space.
   */
  function Rounds(endIndex: Offset): (n: nat)
    ensures 1 <= n <= ULONG_MODULUS
  {
    if endIndex == 0 then ULONG_MODULUS else endIndex
  }

  /** A progress value the loop can be in: scratch page sized, carry in bounds. */
  predicate Running(p: Progress)
  {
    |p.buf| == PAGE_SIZE && p.tmpl <= PAGE_SIZE - 2 && p.stop == Finished
  }

  /**
   * One round of the loop at `index`: skip an index with no page, stop at a
   * page not up to date, otherwise parse the page's first `end` bytes, where
   * `end` is end_offset at end_index and a whole page elsewhere.
   */
  function PageStep(p: Progress, index: Offset, endIndex: Offset, endOffset: nat,
                    pages: map<nat, PageStatus>, outcomes: Outcomes): (r: Progress)
    requires Running(p) && endOffset < PAGE_CACHE_SIZE && WellSized(pages)
    ensures |r.buf| == PAGE_SIZE && r.tmpl <= PAGE_SIZE - 2
    ensures r.buf[PAGE_SIZE - 1] == p.buf[PAGE_SIZE - 1]
  {
    var end := if index == endIndex then endOffset else PAGE_CACHE_SIZE;
    if index !in pages then p
    else match pages[index]
      case NotUptodate => p.(stop := Broken)
      case Uptodate(data) =>
        var r := Reassemble(p.buf, p.tmpl, data[..end]);
        Progress(PageEffect(p.state, p.num, r, outcomes), r.buf, r.tmpl, p.num + |r.lines|,
                 if r.tooLong then ParseError else Finished)
  }

  /** `left` rounds of the loop from `index`, stopping early at the first round that does not finish. */
  function WalkPages(p: Progress, index: Offset, left: nat, endIndex: Offset, endOffset: nat,
                     pages: map<nat, PageStatus>, outcomes: Outcomes): (r: Progress)
    requires Running(p) && endOffset < PAGE_CACHE_SIZE && WellSized(pages)
    ensures |r.buf| == PAGE_SIZE && r.tmpl <= PAGE_SIZE - 2
    ensures r.buf[PAGE_SIZE - 1] == p.buf[PAGE_SIZE - 1]
    decreases left
  {
    if left == 0 then p
    else
      var p1 := PageStep(p, index, endIndex, endOffset, pages, outcomes);
      if p1.stop != Finished then p1
      else WalkPages(p1, (index + 1) % ULONG_MODULUS, left - 1, endIndex, endOffset, pages, outcomes)
  }

  /** The whole page loop of dmfs_parse for a file of `iSize` bytes, from an empty table. */
  function ParseWalk(s: State, scratch: seq<char>, iSize: nat, pages: map<nat, PageStatus>,
                     outcomes: Outcomes): (r: Progress)
    requires |scratch| == PAGE_SIZE && WellSized(pages)
    ensures |r.buf| == PAGE_SIZE && r.tmpl <= PAGE_SIZE - 2
    ensures r.buf[PAGE_SIZE - 1] == scratch[PAGE_SIZE - 1]
  {
    WalkPages(Progress(s, scratch, 0, 0, Finished), 0, Rounds(EndIndex(iSize)),
              EndIndex(iSize), EndOffset(iSize), pages, outcomes)
  }

  /** The state of an empty table next to a registry. */
  function EmptyTable(refs: map<string, nat>, trace: seq<Call>): State
  {
    State([], [], [], refs, trace)
  }

  /** One round of the page loop of dmfs_parse. */
  method ParseIndex(t: Table, reg: Registry, tmp: array<char>, index: Offset, endIndex: Offset, endOffset: nat,
                    pages: map<nat, PageStatus>, remIn: nat, numIn: nat, outcomes: Outcomes)
    returns (stop: Stop, rem: nat, num: nat)
    requires tmp.Length == PAGE_SIZE && remIn <= PAGE_SIZE - 2
    requires endOffset < PAGE_CACHE_SIZE && WellSized(pages)
    modifies tmp, t`highs, t`targets, t`errors, reg`refs, reg`trace
    ensures Progress(Snapshot(t, reg), tmp[..], rem, num, stop) ==
      PageStep(Progress(old(Snapshot(t, reg)), old(tmp[..]), remIn, numIn, Finished), index, endIndex, endOffset,
               pages, outcomes)
  {
    var end := if index == endIndex then endOffset else PAGE_CACHE_SIZE;
    stop, rem, num := Finished, remIn, numIn;
    if index in pages {
      match pages[index]
      case NotUptodate =>
        stop := Broken;
      case Uptodate(data) =>
        var rv;
        rv, rem, num := ParsePage(t, reg, data[..end], tmp, remIn, numIn, outcomes);
        if rv != 0 {
          stop := ParseError;
        }
    }
  }

  /** Moving on from `index` finishes the loop exactly when `left` is down to its last round. */
  lemma NextIndex(endIndex: Offset, index: Offset, left: nat)
    requires 1 <= left <= Rounds(endIndex) && index == Rounds(endIndex) - left
    ensures ((index + 1) % ULONG_MODULUS == endIndex) == (left == 1)
    ensures left > 1 ==> (index + 1) % ULONG_MODULUS == Rounds(endIndex) - (left - 1)
  {
  }

  /** WalkPages unfolded once at a page that finishes its round. */
  lemma WalkPagesUnfold(p: Progress, p1: Progress, index: Offset, left: nat, endIndex: Offset, endOffset: nat,
                        pages: map<nat, PageStatus>, outcomes: Outcomes)
    requires Running(p) && endOffset < PAGE_CACHE_SIZE && WellSized(pages) && left >= 1
    requires p1 == PageStep(p, index, endIndex, endOffset, pages, outcomes)
    ensures WalkPages(p, index, left, endIndex, endOffset, pages, outcomes) ==
      if p1.stop != Finished then p1
      else WalkPages(p1, (index + 1) % ULONG_MODULUS, left - 1, endIndex, endOffset, pages, outcomes)
  {
  }

  /**
   * The page loop of dmfs_parse, from index 0 with an empty carry and line
   * number 0, until it has run Rounds(end_index) rounds or a round stops it.
   */
  method ParsePages(t: Table, reg: Registry, page: array<char>, endIndex: Offset, endOffset: nat,
                    pages: map<nat, PageStatus>, outcomes: Outcomes)
    returns (stop: Stop, rem: nat, num: nat)
    requires page.Length == PAGE_SIZE && endOffset < PAGE_CACHE_SIZE && WellSized(pages)
    modifies page, t`highs, t`targets, t`errors, reg`refs, reg`trace
    ensures Progress(Snapshot(t, reg), page[..], rem, num, stop) ==
      WalkPages(Progress(old(Snapshot(t, reg)), old(page[..]), 0, 0, Finished), 0, Rounds(endIndex),
                endIndex, endOffset, pages, outcomes)
  {
    ghost var start := Progress(Snapshot(t, reg), page[..], 0, 0, Finished);
    ghost var total := Rounds(endIndex);
    ghost var left := total;
    var index: Offset := 0;
    rem, num, stop := 0, 0, Finished;
    while true
      invariant 1 <= left <= total && index == total - left && rem <= PAGE_SIZE - 2
      invariant WalkPages(start, 0, total, endIndex, endOffset, pages, outcomes) ==
        WalkPages(Progress(Snapshot(t, reg), page[..], rem, num, Finished), index, left, endIndex, endOffset,
                  pages, outcomes)
      decreases left
    {
      ghost var here := Progress(Snapshot(t, reg), page[..], rem, num, Finished);
      stop, rem, num := ParseIndex(t, reg, page, index, endIndex, endOffset, pages, rem, num, outcomes);
      WalkPagesUnfold(here, Progress(Snapshot(t, reg), page[..], rem, num, stop), index, left, endIndex, endOffset,
                      pages, outcomes);
      if stop != Finished {
        break;
      }
      NextIndex(endIndex, index, left);
      index := (index + 1) % ULONG_MODULUS;
      left := left - 1;
      if index == endIndex {
        break;
      }
    }
  }

  /**
   * dmfs_parse: NULL for an empty file or when the scratch page or the table
   * cannot be had; otherwise the page loop, and the table when every page
   * parsed and dm_table_complete succeeded. `created` is the table
   * dm_create_table returned, if it got that far: on every NULL return after
   * it the table has been put. The scratch page is freed on every path.
   */
  method Parse(reg: Registry, pool: PagePool, iSize: nat, pages: map<nat, PageStatus>, env: Env)
    returns (t: Table?, ghost created: Table?)
    requires iSize < LOFF_LIMIT && |env.scratch| == PAGE_SIZE && WellSized(pages)
    modifies reg`refs, reg`trace, pool`live
    ensures pool.live == old(pool.live)
    ensures iSize == 0 || !env.pageOk || !env.createOk ==>
      t == null && created == null && reg.refs == old(reg.refs) && reg.trace == old(reg.trace)
    ensures iSize > 0 && env.pageOk && env.createOk ==>
      var w := ParseWalk(EmptyTable(old(reg.refs), old(reg.trace)), env.scratch, iSize, pages, env.outcomes);
      created != null && fresh(created) &&
      Snapshot(created, reg) == w.state &&
      (t != null <==> w.stop == Finished && env.completeOk) &&
      (t != null ==> t == created && t.refCount == 1 && t.complete) &&
      (t == null ==> created.refCount == 0)
  {
    created := null;
    if iSize == 0 {
      return null, created;
    }
    var page := pool.GetFreePage(env.pageOk, env.scratch);
    if page == null {
      return null, created;
    }
    if !env.createOk {
      pool.FreePage(page);
      return null, created;
    }
    t := new Table();
    created := t;
    var stop, rem, num := ParsePages(t, reg, page, EndIndex(iSize), EndOffset(iSize), pages, env.outcomes);
    pool.FreePage(page);
    if stop == Finished {
      var rv := t.Complete(env.completeOk);
      if rv == 0 {
        return t, created;
      }
    }
    t.Put();
    t := null;
  }

  /** The per-inode data of dmfs: the table slot a successful parse fills. */
  class DmfsInode {
    var table: Table?

    constructor (table: Table?)
      ensures this.table == table
    {
      this.table := table;
    }
  }

  /**
   * dmfs_release: for an open with write access, parse the file and, when
   * that produced a table, put the table the slot held (once) and install
   * the new one; a failed parse leaves the slot alone, and an open without
   * write access changes nothing.
   */
  method Release(dmi: DmfsInode, writable: bool, reg: Registry, pool: PagePool, iSize: nat,
                 pages: map<nat, PageStatus>, env: Env)
    returns (rv: int)
    requires iSize < LOFF_LIMIT && |env.scratch| == PAGE_SIZE && WellSized(pages)
    requires dmi.table != null ==> dmi.table.refCount > 0
    modifies dmi`table, if dmi.table != null then {dmi.table} else {}, reg`refs, reg`trace, pool`live
    ensures rv == 0 && pool.live == old(pool.live)
    ensures !writable ==> dmi.table == old(dmi.table) && reg.refs == old(reg.refs) && reg.trace == old(reg.trace)
    ensures old(dmi.table) != null && dmi.table == old(dmi.table) ==> dmi.table.refCount == old(dmi.table.refCount)
    ensures old(dmi.table) != null ==>
      old(dmi.table).highs == old(dmi.table.highs) && old(dmi.table).targets == old(dmi.table.targets) &&
      old(dmi.table).errors == old(dmi.table.errors) && old(dmi.table).complete == old(dmi.table.complete)
    ensures writable ==>
      var w := ParseWalk(EmptyTable(old(reg.refs), old(reg.trace)), env.scratch, iSize, pages, env.outcomes);
      var created := iSize > 0 && env.pageOk && env.createOk;
      var parsed := created && w.stop == Finished && env.completeOk;
      (created ==> reg.refs == w.state.refs && reg.trace == w.state.trace) &&
      (!created ==> reg.refs == old(reg.refs) && reg.trace == old(reg.trace)) &&
      (parsed ==>
         dmi.table != null && fresh(dmi.table) && dmi.table.refCount == 1 && dmi.table.complete &&
         Snapshot(dmi.table, reg) == w.state &&
         (old(dmi.table) != null ==> old(dmi.table).refCount == old(dmi.table.refCount) - 1)) &&
      (!parsed ==> dmi.table == old(dmi.table))
  {
    if !writable {
      return 0;
    }
    var table, created := Parse(reg, pool, iSize, pages, env);
    if table != null {
      if dmi.table != null {
        dmi.table.Put();
      }
      dmi.table := table;
    }
    return 0;
  }
}
