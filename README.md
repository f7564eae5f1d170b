# dmfs table compiler, modelled in Dafny

This project models the table compiler of the device-mapper file system
(`driver/device-mapper/dmfs-table.c`). When a writer closes a table file,
dmfs reads the file's text from the page cache and compiles it into a
device-mapper table.

- Each line reads `<start> <size> <type> <args>`.
- Each line either appends one segment to the table or records exactly one
  error for its line number.
- Segments must be contiguous: each one starts one past the high of the one
  before it.
- Lines are reassembled across page boundaries in a one-page scratch buffer.
- When every page parsed and the table completes, the new table replaces the
  one the inode held.

The modules follow the file's structure:

- `DmTypes` (`dm_types.dfy`) holds the shared values and widths.
  - `unsigned long` and `offset_t` wrap modulo 2^32 (`ULONG_MODULUS`).
  - `PAGE_SIZE` and `PAGE_CACHE_SIZE` are 4096.
  - `CString` is the string a C function sees at a `char *`.
  - `State` is everything parsing can change, taken as one value: the
    table's highs, targets and error list, and the registry's reference
    counts and call trace.
- `DmInterfaces` (`dm_interfaces.dfy`) holds abstract classes for the
  helpers this file calls but does not define:
  - `Table`: `dm_create_table`, `dm_table_add_target`,
    `dm_table_complete`, `dm_put_table`, and `dmfs_add_error`.
  - `Registry`: `dm_get_target_type`, `dm_put_target_type`, and the target
    `ctr`/`dtr` callbacks.
  - `PagePool`: `__get_free_page` and `free_page`.

  Their success or failure comes in as arguments.
- `Tokenizer` (`tokenizer.dfy`) covers `strsep` over `" \t"`, `next_token`
  and `simple_strtoul`.
  - `Token` is the reference meaning.
  - `NextToken` is the source's loop, proved equal to `Token`.
  - `Words` gives the whitespace-separated words independently of `Token`.
- `LineParser` (`line_parser.dfy`) covers `start_of_next_range` and
  `dmfs_parse_line`.
  - `CheckLine` and `TypeStep` describe the line's effect as a value:
    `CheckLine` runs the checks that need no registry, and `TypeStep` does
    the lookup, the constructor, the add and the rollback.
  - `ParseLine` mutates the `Table` and `Registry` objects in source order
    and is proved to have exactly that effect.
- `Reassembly` (`reassembly.dfy`) covers `dmfs_copy` and `dmfs_parse_page`.
  - `Copy` writes into an `array<char>` in place.
  - `Reassemble` and `ApplyLines` specify the line reassembly and the
    parsing of the lines it completes.
- `ReassemblyProps` (`reassembly_props.dfy`) proves reassembly on text of
  known shape, and that splitting text into chunks changes nothing when
  the second chunk is a whole page.
- `Driver` (`driver.dfy`) covers `dmfs_parse` and the table-slot update of
  `dmfs_release`.
  - The page cache is a map from page index to the page found there: one
    not up to date, or one with its bytes. An index with no page is absent
    from the map.
  - `WalkPages` and `ParseWalk` specify the page loop.
- `DriverProps` (`driver_props.dfy`) proves what the page loop reads and
  how the table grows along it.
- `PagesProps` (`pages_props.dfy`) proves that reassembling whole pages one
  after another, with one scratch page and one carry, is reassembling their
  concatenated bytes as one text.

The callbacks' answers come in as an `Outcomes` value indexed by line
number. Each line number is parsed at most once, so this loses no
generality. The answers are whether a target constructor succeeds and the
context it returns, and whether `dm_table_add_target` succeeds.

The model reproduces the following behaviour of the code as written:

- `*tmpl = copied` overwrites the carry length instead of adding to it.
  `CarryLengthOverwritten` states what that does to `dmfs_parse_page` on
  its own. Within `dmfs_parse` the overwrite cannot be observed:
  - Every page it hands over with a non-zero carry is a whole page.
  - On a whole page, the round that starts with the carry either completes
    a line or overflows.

  `FullPageFirstRound` and `WholePageRound` state this.
  `ReassembleConcat` and `PagesConcat` prove the consequence: page
  boundaries change neither the lines completed nor whether one is too
  long.
- On a successful add, the reference on the target type is kept (no put).
- The constructor-failure message is the literal "This message should never
  appear (constructor error)".
- A size of 0 is accepted, and `start + (size - 1)` wraps.
- The page loop of `dmfs_parse` runs `do … while (index != end_index)` over
  an `unsigned long` index, with two consequences:
  - When `end_index >= 1`, the page at `end_index` is never read, so the
    last `end_offset` bytes of the file are ignored.
  - When `end_index == 0`, the index runs all the way round the 2^32 index
    space. `Rounds` counts this, and `SmallFile` shows that only page 0
    matters when no other page is cached.

## Model

| member | source | states |
|---|---|---|
| `Tokenizer.StrSep` | driver/device-mapper/dmfs-table.c:33 | strsep yields a field exactly when the cursor is not NULL, and the cursor it leaves is strictly shorter |
| `Tokenizer.Token` | driver/device-mapper/dmfs-table.c:27-37 | reference meaning of next_token (skip spaces and tabs, take the run up to the next one): no token leaves a NULL cursor; a token is non-empty and the cursor after it is strictly shorter, so repeated calls end |
| `Tokenizer.NextToken` | driver/device-mapper/dmfs-table.c:27-37 | the strsep loop that skips empty fields returns exactly the token and cursor of the reference meaning `Token` |
| `Tokenizer.TokenUnfold` | driver/device-mapper/dmfs-table.c:32-34 | one strsep step either gives an empty field, which next_token skips and goes on from the new cursor, or gives next_token's answer |
| `Tokenizer.TokenFound` | driver/device-mapper/dmfs-table.c:27-37 | no token exactly when the cursor is NULL or only spaces and tabs remain, and then the cursor becomes NULL; otherwise the token is non-empty and has no space or tab |
| `Tokenizer.TokenShape` | driver/device-mapper/dmfs-table.c:27-37 | the token follows a run of delimiters in the string; it is followed either by the end of the string (cursor NULL) or by exactly one delimiter and then the remainder, which is the suffix after it |
| `Tokenizer.TokenWords` | driver/device-mapper/dmfs-table.c:27-37 | next_token hands out the line's whitespace-separated words in order: no token exactly when no word is left, otherwise the first word, and the words after it remain at the cursor |
| `Tokenizer.StrtoulDecimal` | driver/device-mapper/dmfs-table.c:62 | simple_strtoul(tok, NULL, 10) on a decimal numeral followed by a non-digit gives the number modulo 2^32 |
| `Tokenizer.Strtoul` | driver/device-mapper/dmfs-table.c:62 | simple_strtoul(tok, NULL, 10) on a token with no leading digit gives 0 |
| `LineParser.StartOfNextRange` | driver/device-mapper/dmfs-table.c:39-46 | 0 for a table with no targets; otherwise the offset just before it is the last high, so it lies one past the last segment, and above it unless the last high is the top offset |
| `LineParser.SegmentStartIsNextRange` | driver/device-mapper/dmfs-table.c:39-46 | start_of_next_range after the first i segments is where segment i starts: 0 for no segments, else one past the previous high (wrapping) |
| `LineParser.WellFormedAscending` | driver/device-mapper/dmfs-table.c:39-46 | in a table of contiguous non-empty segments, the highs are strictly ascending |
| `LineParser.WellFormedAppend` | driver/device-mapper/dmfs-table.c:70-72 | appending a high keeps the table contiguous and non-empty exactly when the previous high is not the top offset and the new high is at least start_of_next_range |
| `LineParser.HighNotBelowStart` | driver/device-mapper/dmfs-table.c:86 | `high = start + (size - 1)` in unsigned arithmetic is at least `start` exactly when the segment does not wrap: size at least 1 and start + size within range, or size 0 at start 0 |
| `LineParser.AppendSegmentWellFormed` | driver/device-mapper/dmfs-table.c:70-86 | a segment placed at start_of_next_range keeps the table well formed exactly when its high does not wrap |
| `LineParser.ParseTarget` | driver/device-mapper/dmfs-table.c:79-92 | lookup, constructor, add and rollback: on success the table and registry are as TypeStep says; on failure they are as TypeStep says once the returned message is recorded |
| `LineParser.ParseLine` | driver/device-mapper/dmfs-table.c:48-95 | dmfs_parse_line leaves the table, error list and registry exactly as LineStep (CheckLine and then TypeStep) says |
| `LineParser.TypeStepEffect` | driver/device-mapper/dmfs-table.c:79-94 | past the early checks, either one segment ending at start + size - 1 is added, one reference is kept and no error is recorded, or one error for the line is recorded and the table and the reference counts are unchanged |
| `LineParser.LineStepEffect` | driver/device-mapper/dmfs-table.c:48-95 | every line either appends exactly one segment and keeps one more reference on its type, with no error, or appends exactly one error with the line's number and leaves the table and reference counts unchanged |
| `LineParser.CheckLineWords` | driver/device-mapper/dmfs-table.c:58-77 | the early checks on the words of the line: no word gives "No start argument", one word "No size argument", a first word not at the next offset "Gap in table", and two words "No target type"; otherwise the first three words give start, size and type |
| `LineParser.FirstFailingCheck` | driver/device-mapper/dmfs-table.c:58-94 | the first failing check before the lookup decides the one error, in source order, and on those paths nothing else changes (no registry call is made); a line passing them records none of those four messages |
| `LineParser.UnknownTypeCheck` | driver/device-mapper/dmfs-table.c:79-81 | "Target type unknown" is what the line records exactly when it passes the early checks and its third word names no registered type |
| `LineParser.TargetTypeCalls` | driver/device-mapper/dmfs-table.c:80-91 | calls into target-type code per outcome: a failed lookup alone; lookup, ctr, put when ctr fails; lookup, ctr, dtr on the new context, put when the add fails; lookup and ctr with no put when the add succeeds; reference counts balance on every failure path |
| `LineParser.AddedSegment` | driver/device-mapper/dmfs-table.c:70-88 | a line that records no error passed every check, starts at start_of_next_range, and keeps the table well formed exactly when its high does not wrap |
| `LineParser.AddedSegmentWellFormed` | driver/device-mapper/dmfs-table.c:58-88 | the same on the words of the line: a size of 0 is accepted, and past the first segment it leaves a high below its start |
| `Reassembly.CopyCount` | driver/device-mapper/dmfs-table.c:98-117 | dmfs_copy copies at most dstlen and at most srclen bytes; the flag implies at least one byte copied; without the flag it copies min(dstlen, srclen) |
| `Reassembly.CopyCountNewline` | driver/device-mapper/dmfs-table.c:98-117 | the flag is set exactly when a newline is among the copied bytes; that newline is then the last copied byte and the only one |
| `Reassembly.Copy` | driver/device-mapper/dmfs-table.c:98-117 | the in-place loop returns CopyCount's answer; it writes the copied bytes at dst with the final newline replaced by NUL, and leaves every other byte of the array unchanged |
| `Reassembly.Reassemble` | driver/device-mapper/dmfs-table.c:119-143 | the loop of dmfs_parse_page keeps the carry length within PAGE_SIZE - 2 and never writes the last byte of the scratch page |
| `Reassembly.ParseRound` | driver/device-mapper/dmfs-table.c:124-135 | one round copies after the carry; when carry + copied reaches PAGE_SIZE - 1 it records "Line too long" at the current line number, and otherwise a completed line is parsed with the current number, after the lines before it |
| `Reassembly.ParseNextLine` | driver/device-mapper/dmfs-table.c:131-134 | a completed line is parsed once, numbered after the lines already parsed from the chunk |
| `Reassembly.ParsePage` | driver/device-mapper/dmfs-table.c:119-143 | scratch page, carry and line count end as Reassemble says; each completed line is parsed once in order with consecutive numbers; -1 after "Line too long" at the next number, otherwise 0 with the chunk consumed |
| `Reassembly.LineStepGrows` | driver/device-mapper/dmfs-table.c:132-133 | parsing one line adds one segment or one error numbered with that line, and keeps everything recorded before |
| `Reassembly.ApplyLinesEffect` | driver/device-mapper/dmfs-table.c:131-134 | parsing n lines from number num adds n segments and errors in all, each error numbered within num .. num + n - 1, and keeps earlier segments and errors |
| `ReassemblyProps.CopyPlainLine` | driver/device-mapper/dmfs-table.c:102-116 | on a line that fits the scratch page, dmfs_copy stops just after the line's newline, which becomes NUL |
| `ReassemblyProps.RoundOnPlainLine` | driver/device-mapper/dmfs-table.c:123-135 | on a line that fits, one round completes exactly that line and resets the carry to 0 |
| `ReassemblyProps.PlainLinesRoundTrip` | driver/device-mapper/dmfs-table.c:119-143 | text made of newline-terminated lines, each without NUL and at most PAGE_SIZE - 3 long, parsed from an empty carry, yields exactly those lines in order, with no overflow and no carry left |
| `ReassemblyProps.LongestLine` | driver/device-mapper/dmfs-table.c:125-129 | from an empty carry, a line of up to PAGE_SIZE - 3 characters is completed; one of PAGE_SIZE - 2 or more is "Line too long" exactly, with no line completed |
| `ReassemblyProps.FullPageFirstRound` | driver/device-mapper/dmfs-table.c:123-135 | on a whole page, the round that starts with the carry either ends at a newline or fills the scratch page, whatever the carry |
| `ReassemblyProps.CarryBytesOnly` | driver/device-mapper/dmfs-table.c:123-136 | what dmfs_parse_page makes of a chunk depends on the scratch page only through its first *tmpl bytes: lines, overflow, carry length and carried bytes agree for any two pages that agree there, so from an empty carry nothing left in the page before is read |
| `ReassemblyProps.ReassembleConcat` | driver/device-mapper/dmfs-table.c:123-136 | reassembling text in two chunks, the second at least PAGE_SIZE - 1 bytes long, gives the same lines and overflow as reassembling their concatenation, and without overflow the same scratch page and carry: a line split between them is joined back despite `*tmpl = copied` |
| `ReassemblyProps.CarryLengthOverwritten` | driver/device-mapper/dmfs-table.c:130 | a chunk without a newline that fits after the carry sets the carry length to the chunk's own length, not carry + chunk, and completes no line |
| `Driver.EndIndex` | driver/device-mapper/dmfs-table.c:171 | for a file of fewer than 2^32 pages, end_index is the index of the page holding byte i_size, and end_index * PAGE_CACHE_SIZE + end_offset gives back i_size |
| `Driver.EndOffset` | driver/device-mapper/dmfs-table.c:172 | end_offset is below PAGE_CACHE_SIZE |
| `Driver.Rounds` | driver/device-mapper/dmfs-table.c:174-201 | the loop runs between 1 and 2^32 rounds from index 0: end_index rounds, or the whole index space when end_index is 0 |
| `Driver.PageStep` | driver/device-mapper/dmfs-table.c:175-197 | a round keeps the scratch page's size and the carry within bounds |
| `Driver.WalkPages` | driver/device-mapper/dmfs-table.c:174-201 | the rounds of the loop from an index, stopping at the first that does not finish, keep the scratch page's size, keep the carry within PAGE_SIZE - 2, and never change the scratch page's last byte |
| `Driver.ParseWalk` | driver/device-mapper/dmfs-table.c:174-201 | the whole page loop from index 0, an empty carry and line 0 for Rounds(end_index) rounds keeps the carry in bounds and the scratch page's last byte as allocated |
| `Driver.ParseIndex` | driver/device-mapper/dmfs-table.c:175-199 | one round of the loop in place: skip an absent page, stop at one not up to date, otherwise dmfs_parse_page on its first `end` bytes, as PageStep says |
| `Driver.ParsePages` | driver/device-mapper/dmfs-table.c:174-201 | the page loop from index 0 with an empty carry ends in the state WalkPages gives for Rounds(end_index) rounds |
| `Driver.Parse` | driver/device-mapper/dmfs-table.c:145-221 | NULL for an empty file, a failed page allocation or a failed table creation, with nothing changed; otherwise the table holds the walk's result, and the return is non-NULL exactly when no page broke, no line was too long and dm_table_complete succeeded; a returned table is complete with one reference, a failed one has been put; the scratch page is freed on every path |
| `Driver.DmfsInode.constructor` | driver/device-mapper/dmfs-table.c:225 | the per-inode data holds the table slot that dmfs_release reads and replaces |
| `Driver.Release` | driver/device-mapper/dmfs-table.c:223-242 | no write access: nothing changes; with it, the registry ends as the parse leaves it; a parse that yields a table installs it holding exactly the walk's segments, targets and errors, and puts the previous table exactly once; a failed parse leaves the slot and the old table's reference count unchanged; the old table's contents never change |
| `DriverProps.WholePageRound` | driver/device-mapper/dmfs-table.c:175-196 | a round on a parsed page other than the one at end_index either fails with "Line too long" or completes at least one line, so the overwrite of the carry length never shows within dmfs_parse |
| `DriverProps.PageStepFrame` | driver/device-mapper/dmfs-table.c:175-192 | a round reads only the page at its own index |
| `DriverProps.WalkPagesFrame` | driver/device-mapper/dmfs-table.c:174-201 | rounds from index i to i + n - 1 read only the pages at those indices |
| `DriverProps.PagesFromEndIndexIgnored` | driver/device-mapper/dmfs-table.c:200-201 | for a file of at least one page, the outcome depends only on the pages below end_index: the page holding the file's last end_offset bytes is never read |
| `DriverProps.NoPagesNoChange` | driver/device-mapper/dmfs-table.c:184-200 | rounds over indices with no page change nothing |
| `DriverProps.SmallFile` | driver/device-mapper/dmfs-table.c:171-201 | for a file shorter than a page with only page 0 cached, the wrap-around loop amounts to parsing the first i_size bytes of page 0 |
| `DriverProps.PageStepGrows` | driver/device-mapper/dmfs-table.c:184-197 | a round adds one segment or error per line it completes, numbered within them; a failing dmfs_parse_page adds "Line too long" at the final number as its last error |
| `DriverProps.ParsedPageGrows` | driver/device-mapper/dmfs-table.c:192-196 | the same for a page that is parsed, given what dmfs_parse_page made of it |
| `DriverProps.WalkPagesGrows` | driver/device-mapper/dmfs-table.c:174-201 | across the whole loop the line count only grows, each line read adds one segment or one error numbered within the lines read, earlier ones stay, and a parse error ends the list with "Line too long" at the final line number |
| `PagesProps.ReassemblePages` | driver/device-mapper/dmfs-table.c:174-201 | whole pages fed to dmfs_parse_page one after another with one scratch page and one carry, stopping at the first overflow, keep the carry within PAGE_SIZE - 2 |
| `PagesProps.PagesConcat` | driver/device-mapper/dmfs-table.c:174-201 | reassembling up-to-date whole pages one after another, after any text, gives the same lines and overflow as reassembling that text and the pages' concatenated bytes as one text, and without overflow the same scratch page and carry |
| `DmInterfaces.Table.constructor` | driver/device-mapper/dmfs-table.c:165 | dm_create_table gives an empty, incomplete table holding one reference |
| `DmInterfaces.Table.AddTarget` | driver/device-mapper/dmfs-table.c:87 | dm_table_add_target returns 0 exactly on success and then appends the high and the target; otherwise nothing changes |
| `DmInterfaces.Table.AddError` | driver/device-mapper/dmfs-table.c:94 | dmfs_add_error appends (num, msg) to the error list |
| `DmInterfaces.Table.Complete` | driver/device-mapper/dmfs-table.c:204 | dm_table_complete returns 0 exactly on success and then marks the table complete |
| `DmInterfaces.Table.Put` | driver/device-mapper/dmfs-table.c:207 | dm_put_table drops one reference |
| `DmInterfaces.Registry.Lookup` | driver/device-mapper/dmfs-table.c:80 | dm_get_target_type finds exactly the registered names and takes a reference on a hit |
| `DmInterfaces.Registry.Put` | driver/device-mapper/dmfs-table.c:91 | dm_put_target_type gives back one reference |
| `DmInterfaces.Registry.Construct` | driver/device-mapper/dmfs-table.c:83 | ttype->ctr returns 0 and a context exactly when it succeeds |
| `DmInterfaces.Registry.Destroy` | driver/device-mapper/dmfs-table.c:89 | ttype->dtr is called on the context |
| `DmInterfaces.PagePool.GetFreePage` | driver/device-mapper/dmfs-table.c:160 | __get_free_page returns a fresh page with its previous contents, or NULL |
| `DmInterfaces.PagePool.FreePage` | driver/device-mapper/dmfs-table.c:167 | free_page returns the page to the allocator |

## Left out

- The page-cache address-space operations `dmfs_readpage`, `dmfs_writepage`, `dmfs_prepare_write` and `dmfs_commit_write` (lines 244-286) are not modelled. They are page-flag plumbing.
- The open, release and sync file operations and the inode set-up (lines 288-355) are not modelled. They are file-system boilerplate.
- The page lookup machinery of `dmfs_parse` is not modelled: `page_hash`, `pagecache_lock`, `__find_page_nolock`, `page_cache_get`, `page_cache_release`, `kmap`/`kunmap` and `printk`. The page cache is a map from index to page status. Pages are assumed to hold `PAGE_CACHE_SIZE` bytes (`WellSized`).
- On an index with no page, the source still calls `page_cache_release` on the NULL pointer. The model just skips the index.
- The `dmi->sem` semaphore in `dmfs_release` is not modelled. The slot update is one sequential step, so concurrent writers are not covered.
- `f->f_mode & S_IWUGO` is the boolean `writable`.
- The helpers declared in `dm.h` are abstract classes whose outcomes are arguments. Their contracts state only the effects listed in the table above; `dm_put_table` in particular is a reference-count decrement (see `DmInterfaces.Table.Put` below). `dm.h` is not part of this model, so the width of `offset_t` and `unsigned long` is taken as 32 bits (i386).
- `simple_strtoul` reads the leading decimal digits and wraps modulo 2^32. Its behaviour on overflow in the kernel is not stated beyond that.
- Characters are `char`, not bytes. The line handed to `dmfs_parse_line` is the scratch page up to its first NUL, so a NUL inside a line cuts the line short, as in C.
- The initial contents of the scratch page are a parameter, because `__get_free_page` does not clear the page.
- The line counter `num` is an unbounded `nat`. Overflow of `int num` after 2^31 lines is not modelled.
- The file size `i_size` is a `nat` below 2^63 (`loff_t`). `end_index` is truncated to `unsigned long`.
- `dmfs_parse` calls `dmfs_parse_page` with five arguments at line 192, leaving out `&num`. The model passes the line counter, which is the evident intent.
- The extra `)` at line 84 is modelled as the evident intent: a successful constructor goes on to the add.
- `LineParser.TypeStep`, `LineParser.LineStep` and `Reassembly.ApplyLines` carry no `ensures` of their own. Their properties are the lemmas `TypeStepEffect`, `LineStepEffect`, `TargetTypeCalls` and `ApplyLinesEffect`.
- `DmInterfaces.Table.Put`: dm_put_table is modelled as dropping one reference only. Destroying the table when the last reference goes, with the `dtr` of each segment's context and the `dm_put_target_type` for each reference the segments kept, is not modelled, because the code doing it is in `dm.h`'s implementation, which is not part of this model.
- `Driver.Parse`: its claims that the table and registry end as the walk leaves them hold after `dm_put_table` (lines 207, 213, 219) only because that put is a decrement in this model; the destruction it may trigger would also call into the registry.
- `Driver.Release`: likewise, "the registry ends as the parse leaves it" does not account for the destruction of the new table put by a failed parse or of the old table put at line 236.
- `Reassembly.ParseRound`: the NULs that strsep (line 33) writes into the scratch page while dmfs_parse_line tokenises it in place (lines 50, 132) are not modelled; the line is passed by value. No later line reads them: `ReassemblyProps.CarryBytesOnly` shows that from the empty carry left after a parsed line, the rest of the scratch page is never read.
- `Reassembly.ParsePage`: for the same reason its scratch page lacks strsep's NULs inside each parsed line; by `ReassemblyProps.CarryBytesOnly` no later round can tell.
- `Driver.ParseIndex`: inherits the scratch page without strsep's NULs from `Reassembly.ParsePage`.
- `Driver.ParsePages`: inherits the scratch page without strsep's NULs from `Reassembly.ParsePage`.
- `Driver.ParseWalk`: no lemma states that, for end_index = n of at least 1 with pages 0 .. n - 1 up to date, the walk's table, errors and stop equal those of parsing the pages' concatenated bytes as one text. The reassembly half is proved as `PagesProps.PagesConcat`; relating it to the table updates of each round is not proved.
