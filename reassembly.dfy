// dmfs_copy and dmfs_parse_page: the text of a page arrives in chunks; a
// partial line is carried in a scratch buffer of one page, and every line
// completed by a newline is handed to dmfs_parse_line with the current line
// number. The last byte of the scratch buffer is never written.

module Reassembly {
  import opened DmTypes
  import opened DmInterfaces
  import opened LineParser

  const TOO_LONG := "Line too long"

  /** Index of the first newline in `s`, or |s| when there is none. */
  function NewlineIndex(s: seq<char>): (i: nat)
    ensures i <= |s|
  {
    if s == [] || s[0] == '\n' then 0 else 1 + NewlineIndex(s[1..])
  }

  /** NewlineIndex finds the first newline. */
  lemma {:induction false} NewlineIndexSpec(s: seq<char>)
    ensures var i := NewlineIndex(s);
      (forall k :: 0 <= k < i ==> s[k] != '\n') && (i < |s| ==> s[i] == '\n')
  {
    if s != [] && s[0] != '\n' {
      NewlineIndexSpec(s[1..]);
    }
  }

  /**
   * What dmfs_copy reports for a destination of `dstLen` bytes: how many bytes
   * it copied, and whether it stopped at a newline (the flag).
   */
  function CopyCount(dstLen: nat, src: seq<char>): (r: (nat, bool))
    ensures r.0 <= dstLen && r.0 <= |src|
    ensures r.1 ==> r.0 >= 1
    ensures !r.1 ==> r.0 == Min(dstLen, |src|)
  {
    var n := NewlineIndex(src);
    if n < dstLen && n < |src| then (n + 1, true) else (Min(dstLen, |src|), false)
  }

  /**
   * dmfs_copy copies at most `dstLen` and at most |src| bytes; the flag is
   * raised exactly when a newline is among the copied bytes, and then that
   * newline is the last byte copied and the only one; with no newline it
   * copies as much as both lengths allow.
   */
  lemma CopyCountNewline(dstLen: nat, src: seq<char>)
    ensures var (copied, eol) := CopyCount(dstLen, src);
      copied <= dstLen && copied <= |src| &&
      (eol <==> '\n' in src[..copied]) &&
      (eol ==> copied >= 1 && src[copied - 1] == '\n' && '\n' !in src[..copied - 1]) &&
      (!eol ==> copied == Min(dstLen, |src|))
  {
    var n := NewlineIndex(src);
    NewlineIndexSpec(src);
    var (copied, eol) := CopyCount(dstLen, src);
    if eol {
      assert src[..copied][n] == '\n';
    } else {
      assert forall k :: 0 <= k < copied ==> src[..copied][k] != '\n';
    }
  }

  /** The bytes dmfs_copy leaves in the destination: the copied ones, a final newline turned into NUL. */
  function Written(src: seq<char>, copied: nat, eol: bool): (w: seq<char>)
    requires copied <= |src| && (eol ==> copied >= 1)
    ensures |w| == copied
  {
    if eol then src[..copied - 1] + ['\0'] else src[..copied]
  }

  /** `buf` with the bytes from index `at` on replaced by `w`. */
  function Splice(buf: seq<char>, at: nat, w: seq<char>): (r: seq<char>)
    requires at + |w| <= |buf|
    ensures |r| == |buf|
    ensures forall k :: at + |w| <= k < |buf| ==> r[k] == buf[k]
  {
    buf[..at] + w + buf[at + |w|..]
  }

  /** Writing one byte just past a spliced-in run extends the run by that byte. */
  lemma SpliceSet(o: seq<char>, off: nat, w: seq<char>, c: char)
    requires off + |w| < |o|
    ensures Splice(o, off, w)[off + |w| := c] == Splice(o, off, w + [c])
  {
    var x := Splice(o, off, w)[off + |w| := c];
    var y := Splice(o, off, w + [c]);
    forall k | 0 <= k < |x|
      ensures x[k] == y[k]
    {
      if k < off {
      } else if k < off + |w| {
      } else if k == off + |w| {
      } else {
      }
    }
  }

  /** dmfs_copy: copy from `src` into dst[dstOff..dstOff + dstLen] up to and including a newline. */
  method Copy(dst: array<char>, dstOff: nat, dstLen: nat, src: seq<char>) returns (copied: nat, eol: bool)
    requires dstOff + dstLen <= dst.Length
    modifies dst
    ensures (copied, eol) == CopyCount(dstLen, src)
    ensures dst[..] == Splice(old(dst[..]), dstOff, Written(src, copied, eol))
  {
    ghost var o := dst[..];
    NewlineIndexSpec(src);
    copied, eol := 0, false;
    var dstLeft, srcLeft := dstLen, |src|;
    assert dst[..] == Splice(o, dstOff, src[..0]);
    while dstLeft > 0 && srcLeft > 0
      invariant copied <= dstLen && copied <= |src|
      invariant dstLeft == dstLen - copied && srcLeft == |src| - copied
      invariant copied <= NewlineIndex(src)
      invariant dst[..] == Splice(o, dstOff, src[..copied])
      decreases srcLeft
    {
      SpliceSet(o, dstOff, src[..copied], src[copied]);
      assert src[..copied] + [src[copied]] == src[..copied + 1];
      dst[dstOff + copied] := src[copied];
      copied := copied + 1;
      if dst[dstOff + copied - 1] == '\n' {
        eol := true;
        SpliceSet(o, dstOff, src[..copied - 1], '\0');
        dst[dstOff + copied - 1] := '\0';
        assert NewlineIndex(src) == copied - 1;
        return;
      }
      dstLeft, srcLeft := dstLeft - 1, srcLeft - 1;
    }
    assert NewlineIndex(src) >= copied;
  }

  /**
   * The lines a chunk completes, and what it leaves behind: the scratch
   * buffer, the carry length *tmpl, and whether the buffer filled up.
   */
  datatype Reassembled = Reassembled(lines: seq<string>, buf: seq<char>, tmpl: nat, tooLong: bool)

  /** `r` with the lines `done` completed before it. */
  function AfterLines(done: seq<string>, r: Reassembled): Reassembled
  {
    r.(lines := done + r.lines)
  }

  /**
   * The loop of dmfs_parse_page as a value: copy into the buffer after the
   * carry, stop with "too long" when carry and copy fill PAGE_SIZE - 1 bytes,
   * otherwise set the carry length to the bytes just copied and, on a
   * newline, complete the line (the C string at the start of the buffer) and
   * reset the carry; repeat while bytes remain. Every state keeps the carry
   * within PAGE_SIZE - 2 and the last byte of the buffer untouched.
   */
  function Reassemble(buf: seq<char>, tmpl: nat, chunk: seq<char>): (r: Reassembled)
    requires |buf| == PAGE_SIZE && tmpl <= PAGE_SIZE - 2
    ensures |r.buf| == PAGE_SIZE && r.tmpl <= PAGE_SIZE - 2
    ensures r.buf[PAGE_SIZE - 1] == buf[PAGE_SIZE - 1]
    decreases |chunk|
  {
    var (copied, eol) := CopyCount(PAGE_SIZE - tmpl - 1, chunk);
    var buf1 := Splice(buf, tmpl, Written(chunk, copied, eol));
    if tmpl + copied == PAGE_SIZE - 1 then Reassembled([], buf1, tmpl, true)
    else
      var lines := if eol then [CString(buf1)] else [];
      var tmpl1 := if eol then 0 else copied;
      if |chunk| - copied > 0 then AfterLines(lines, Reassemble(buf1, tmpl1, chunk[copied..]))
      else Reassembled(lines, buf1, tmpl1, false)
  }

  /** dmfs_parse_line applied to each line in turn, numbered from `num`. */
  function ApplyLines(s: State, num: nat, lines: seq<string>, outcomes: Outcomes): State
    decreases |lines|
  {
    if lines == [] then s
    else
      var k := |lines| - 1;
      LineStep(ApplyLines(s, num, lines[..k], outcomes), num + k, lines[k], outcomes.At(num + k))
  }

  /**
   * From `s` to `r`, `count` lines numbered from `num` each added one segment
   * or recorded one error, numbered within that range; segments and errors
   * already recorded stay.
   */
  predicate Grows(s: State, r: State, num: nat, count: nat)
  {
    |r.highs| + |r.errors| == |s.highs| + |s.errors| + count &&
    s.highs <= r.highs && s.targets <= r.targets && s.errors <= r.errors &&
    forall k :: |s.errors| <= k < |r.errors| ==> num <= r.errors[k].line < num + count
  }

  /** Growth over consecutive runs of lines adds up. */
  lemma GrowsTrans(s: State, s1: State, r: State, num: nat, c1: nat, c2: nat)
    requires Grows(s, s1, num, c1) && Grows(s1, r, num + c1, c2)
    ensures Grows(s, r, num, c1 + c2)
  {
    forall k | |s.errors| <= k < |r.errors|
      ensures num <= r.errors[k].line < num + c1 + c2
    {
      if k < |s1.errors| {
        assert r.errors[k] == s1.errors[k];
      }
    }
  }

  /** One dmfs_parse_line is growth by one line. */
  lemma LineStepGrows(s: State, num: nat, line: string, o: LineOutcome)
    ensures Grows(s, LineStep(s, num, line, o), num, 1)
  {
    LineStepEffect(s, num, line, o);
    var r := LineStep(s, num, line, o);
    if r.errors == s.errors {
      assert s.highs <= r.highs && s.targets <= r.targets;
    } else {
      assert s.errors <= r.errors;
    }
  }

  /** Parsing several lines is growth by their number. */
  lemma {:induction false} ApplyLinesEffect(s: State, num: nat, lines: seq<string>, outcomes: Outcomes)
    ensures Grows(s, ApplyLines(s, num, lines, outcomes), num, |lines|)
    decreases |lines|
  {
    if lines != [] {
      var k := |lines| - 1;
      var s1 := ApplyLines(s, num, lines[..k], outcomes);
      ApplyLinesEffect(s, num, lines[..k], outcomes);
      LineStepGrows(s1, num + k, lines[k], outcomes.At(num + k));
      GrowsTrans(s, s1, ApplyLines(s, num, lines, outcomes), num, k, 1);
    }
  }

  /** What dmfs_parse_page does to the table, the errors and the registry for one chunk. */
  function PageEffect(s: State, num: nat, r: Reassembled, outcomes: Outcomes): State
  {
    var s1 := ApplyLines(s, num, r.lines, outcomes);
    if r.tooLong then Reject(s1, num + |r.lines|, TOO_LONG) else s1
  }

  lemma PageEffectOf(s: State, num: nat, r: Reassembled, done: seq<string>, outcomes: Outcomes, pre: State, n: nat)
    requires r.lines == done && pre == ApplyLines(s, num, done, outcomes) && n == num + |done|
    ensures PageEffect(s, num, r, outcomes) == if r.tooLong then Reject(pre, n, TOO_LONG) else pre
  {
  }

  lemma ApplyLinesSnoc(s: State, num: nat, done: seq<string>, line: string, outcomes: Outcomes, pre: State, n: nat)
    requires pre == ApplyLines(s, num, done, outcomes) && n == num + |done|
    ensures ApplyLines(s, num, done + [line], outcomes) == LineStep(pre, n, line, outcomes.At(n))
  {
    var xs := done + [line];
    assert xs[..|xs| - 1] == done && xs[|xs| - 1] == line;
  }

  /** Reassemble unfolded once, for a round that does not overflow. */
  lemma ReassembleUnfold(buf: seq<char>, tmpl: nat, chunk: seq<char>, copied: nat, eol: bool, buf1: seq<char>)
    requires |buf| == PAGE_SIZE && tmpl <= PAGE_SIZE - 2
    requires copied == CopyCount(PAGE_SIZE - tmpl - 1, chunk).0 && eol == CopyCount(PAGE_SIZE - tmpl - 1, chunk).1
    requires buf1 == Splice(buf, tmpl, Written(chunk, copied, eol))
    requires tmpl + copied != PAGE_SIZE - 1
    ensures var tmpl1 := if eol then 0 else copied;
      tmpl1 <= PAGE_SIZE - 2 &&
      Reassemble(buf, tmpl, chunk) ==
        AfterLines(if eol then [CString(buf1)] else [],
          if |chunk| - copied > 0 then Reassemble(buf1, tmpl1, chunk[copied..])
          else Reassembled([], buf1, tmpl1, false))
  {
  }

  /** Reassemble unfolded once, for a round that completes a line. */
  lemma ReassembleEol(buf: seq<char>, tmpl: nat, chunk: seq<char>, copied: nat, buf1: seq<char>, rest: seq<char>)
    requires |buf| == PAGE_SIZE && tmpl <= PAGE_SIZE - 2
    requires CopyCount(PAGE_SIZE - tmpl - 1, chunk) == (copied, true)
    requires buf1 == Splice(buf, tmpl, Written(chunk, copied, true)) && rest == chunk[copied..]
    requires tmpl + copied != PAGE_SIZE - 1
    ensures Reassemble(buf, tmpl, chunk) ==
      AfterLines([CString(buf1)], if |rest| > 0 then Reassemble(buf1, 0, rest) else Reassembled([], buf1, 0, false))
  {
    assert CopyCount(PAGE_SIZE - tmpl - 1, chunk).0 == copied;
    assert CopyCount(PAGE_SIZE - tmpl - 1, chunk).1;
  }

  lemma AfterLinesAssoc(done: seq<string>, lines: seq<string>, r: Reassembled)
    ensures AfterLines(done, AfterLines(lines, r)) == AfterLines(done + lines, r)
  {
    assert done + (lines + r.lines) == done + lines + r.lines;
  }

  /** One round of the loop of dmfs_parse_page that does not overflow, and the rounds after it. */
  lemma ReassembleStep(buf: seq<char>, tmpl: nat, chunk: seq<char>, copied: nat, eol: bool, buf1: seq<char>,
                       done: seq<string>)
    requires |buf| == PAGE_SIZE && tmpl <= PAGE_SIZE - 2
    requires (copied, eol) == CopyCount(PAGE_SIZE - tmpl - 1, chunk)
    requires buf1 == Splice(buf, tmpl, Written(chunk, copied, eol))
    requires tmpl + copied != PAGE_SIZE - 1
    ensures var lines := if eol then [CString(buf1)] else [];
      var tmpl1 := if eol then 0 else copied;
      tmpl1 <= PAGE_SIZE - 2 && |buf1| == PAGE_SIZE &&
      AfterLines(done, Reassemble(buf, tmpl, chunk)) ==
        AfterLines(done + lines,
          if |chunk| - copied > 0 then Reassemble(buf1, tmpl1, chunk[copied..])
          else Reassembled([], buf1, tmpl1, false))
  {
    var lines := if eol then [CString(buf1)] else [];
    var tmpl1 := if eol then 0 else copied;
    var r := if |chunk| - copied > 0 then Reassemble(buf1, tmpl1, chunk[copied..])
      else Reassembled([], buf1, tmpl1, false);
    ReassembleUnfold(buf, tmpl, chunk, copied, eol, buf1);
    AfterLinesAssoc(done, lines, r);
  }

  /** dmfs_parse_line on the next reassembled line extends the lines parsed so far by one. */
  method ParseNextLine(t: Table, reg: Registry, num: nat, line: string, outcomes: Outcomes,
                       ghost s0: State, ghost numIn: nat, ghost done: seq<string>)
    requires Snapshot(t, reg) == ApplyLines(s0, numIn, done, outcomes) && num == numIn + |done|
    modifies t`highs, t`targets, t`errors, reg`refs, reg`trace
    ensures Snapshot(t, reg) == ApplyLines(s0, numIn, done + [line], outcomes)
  {
    ghost var pre := Snapshot(t, reg);
    ParseLine(t, reg, num, line, outcomes.At(num));
    assert Snapshot(t, reg) == LineStep(pre, num, line, outcomes.At(num));
    ApplyLinesSnoc(s0, numIn, done, line, outcomes, pre, num);
  }

  /**
   * One round of the loop of dmfs_parse_page: copy after the carry; on
   * overflow record "Line too long", otherwise parse the line a newline
   * completed.
   */
  method ParseRound(t: Table, reg: Registry, tmp: array<char>, tmpl: nat, buf: seq<char>, num: nat,
                    outcomes: Outcomes, ghost s0: State, ghost numIn: nat, ghost done: seq<string>)
    returns (copied: nat, flag: bool, tooLong: bool)
    requires tmp.Length == PAGE_SIZE && tmpl <= PAGE_SIZE - 2
    requires Snapshot(t, reg) == ApplyLines(s0, numIn, done, outcomes) && num == numIn + |done|
    modifies tmp, t`highs, t`targets, t`errors, reg`refs, reg`trace
    ensures (copied, flag) == CopyCount(PAGE_SIZE - tmpl - 1, buf)
    ensures tmp[..] == Splice(old(tmp[..]), tmpl, Written(buf, copied, flag))
    ensures tooLong == (tmpl + copied == PAGE_SIZE - 1)
    ensures tooLong ==> Snapshot(t, reg) == Reject(old(Snapshot(t, reg)), num, TOO_LONG)
    ensures !tooLong && flag ==> Snapshot(t, reg) == ApplyLines(s0, numIn, done + [CString(tmp[..])], outcomes)
    ensures !tooLong && !flag ==> Snapshot(t, reg) == old(Snapshot(t, reg))
  {
    copied, flag := Copy(tmp, tmpl, PAGE_SIZE - tmpl - 1, buf);
    tooLong := tmpl + copied == PAGE_SIZE - 1;
    if tooLong {
      t.AddError(num, TOO_LONG);
    } else if flag {
      ParseNextLine(t, reg, num, CString(tmp[..]), outcomes, s0, numIn, done);
    }
  }

  /**
   * dmfs_parse_page: reassemble the chunk's lines in `tmp` and parse each;
   * -1 after recording "Line too long" at the current line number, 0 once
   * the chunk is consumed.
   */
  method ParsePage(t: Table, reg: Registry, chunk: seq<char>, tmp: array<char>, tmplIn: nat, numIn: nat,
                   outcomes: Outcomes)
    returns (rv: int, tmpl: nat, num: nat)
    requires tmp.Length == PAGE_SIZE && tmplIn <= PAGE_SIZE - 2
    modifies tmp, t`highs, t`targets, t`errors, reg`refs, reg`trace
    ensures var r := Reassemble(old(tmp[..]), tmplIn, chunk);
      tmp[..] == r.buf && tmpl == r.tmpl && num == numIn + |r.lines| &&
      rv == (if r.tooLong then -1 else 0) &&
      Snapshot(t, reg) == PageEffect(old(Snapshot(t, reg)), numIn, r, outcomes)
  {
    ghost var s0 := Snapshot(t, reg);
    ghost var full := Reassemble(tmp[..], tmplIn, chunk);
    ghost var done: seq<string> := [];
    var buf := chunk;
    tmpl, num := tmplIn, numIn;
    while true
      invariant tmpl <= PAGE_SIZE - 2
      invariant full == AfterLines(done, Reassemble(tmp[..], tmpl, buf))
      invariant num == numIn + |done|
      invariant Snapshot(t, reg) == ApplyLines(s0, numIn, done, outcomes)
      decreases |buf|
    {
      ghost var before := tmp[..];
      ghost var pre := Snapshot(t, reg);
      ghost var tmpl0, buf0 := tmpl, buf;
      var copied, flag, tooLong := ParseRound(t, reg, tmp, tmpl, buf, num, outcomes, s0, numIn, done);
      buf := buf[copied..];
      if tooLong {
        assert Reassemble(before, tmpl0, buf0) == Reassembled([], tmp[..], tmpl, true);
        PageEffectOf(s0, numIn, full, done, outcomes, pre, num);
        return -1, tmpl, num;
      }
      ReassembleStep(before, tmpl0, buf0, copied, flag, tmp[..], done);
      tmpl := copied;
      if flag {
        done := done + [CString(tmp[..])];
        num := num + 1;
        tmpl := 0;
      }
      if |buf| == 0 {
        PageEffectOf(s0, numIn, full, done, outcomes, Snapshot(t, reg), num);
        break;
      }
    }
    rv := 0;
  }
}
