// What the line reassembly of dmfs_parse_page does on inputs of known
// shape: well-formed text splits back into its lines, the longest line that
// fits the scratch page, and how a chunk without a newline sets the carry.

module ReassemblyProps {
  import opened DmTypes
  import opened Reassembly

  /** Text made of the given lines, each ended by a newline. */
  function Joined(lines: seq<string>): (text: seq<char>)
    ensures |text| >= |lines|
  {
    if lines == [] then [] else lines[0] + ['\n'] + Joined(lines[1..])
  }

  /** A line dmfs_parse_page hands over unchanged: no newline, no NUL, and short enough for the scratch page. */
  predicate Plain(line: string)
  {
    '\n' !in line && '\0' !in line && |line| <= PAGE_SIZE - 3
  }

  /** The first newline of `x + "\n" + y`, when x has none, is the one after x. */
  lemma NewlineAfter(x: seq<char>, y: seq<char>)
    requires '\n' !in x
    ensures NewlineIndex(x + ['\n'] + y) == |x|
  {
    NewlineIndexSpec(x + ['\n'] + y);
    assert (x + ['\n'] + y)[|x|] == '\n';
  }

  /** The C string of `x + NUL + y`, when x has no NUL, is x. */
  lemma {:induction false} CStringBeforeNul(x: seq<char>, y: seq<char>)
    requires '\0' !in x
    ensures CString(x + ['\0'] + y) == x
  {
    if x != [] {
      assert (x + ['\0'] + y)[1..] == x[1..] + ['\0'] + y;
      CStringBeforeNul(x[1..], y);
    }
  }

  /** On a line that fits, dmfs_copy stops at the line's newline and turns it into a NUL. */
  lemma CopyPlainLine(line: string, rest: seq<char>)
    requires '\n' !in line && |line| <= PAGE_SIZE - 3
    ensures var chunk := line + ['\n'] + rest;
      CopyCount(PAGE_SIZE - 1, chunk) == (|line| + 1, true) &&
      Written(chunk, |line| + 1, true) == line + ['\0'] &&
      chunk[|line| + 1..] == rest
  {
    var chunk := line + ['\n'] + rest;
    NewlineAfter(line, rest);
    assert chunk[..|line|] == line;
    assert chunk[|line| + 1..] == rest;
  }

  /** A line spliced with its NUL over the start of the scratch buffer reads back as the line. */
  lemma CStringOfSpliced(buf: seq<char>, line: string)
    requires '\0' !in line && |line| < |buf|
    ensures CString(Splice(buf, 0, line + ['\0'])) == line
  {
    var w := line + ['\0'];
    assert buf[..0] + w == w;
    CStringBeforeNul(line, buf[|w|..]);
  }

  /**
   * One round on a line that fits: the copy stops at the line's newline,
   * the line is complete, and the carry is reset.
   */
  lemma RoundOnPlainLine(buf: seq<char>, line: string, rest: seq<char>, chunk: seq<char>, buf1: seq<char>)
    requires |buf| == PAGE_SIZE && '\n' !in line && |line| <= PAGE_SIZE - 3
    requires chunk == line + ['\n'] + rest && buf1 == Splice(buf, 0, line + ['\0'])
    ensures Reassemble(buf, 0, chunk) ==
      AfterLines([CString(buf1)], if |rest| > 0 then Reassemble(buf1, 0, rest) else Reassembled([], buf1, 0, false))
  {
    CopyPlainLine(line, rest);
    ReassembleEol(buf, 0, chunk, |line| + 1, buf1, rest);
  }

  /** Every line is plain. */
  predicate AllPlain(lines: seq<string>)
  {
    forall i :: 0 <= i < |lines| ==> Plain(lines[i])
  }

  /** The first of several plain lines is completed in the first round. */
  lemma PlainFirstLine(buf: seq<char>, line: string, more: seq<string>)
    requires |buf| == PAGE_SIZE && Plain(line)
    ensures var buf1 := Splice(buf, 0, line + ['\0']);
      Reassemble(buf, 0, Joined([line] + more)) ==
        AfterLines([line],
          if more != [] then Reassemble(buf1, 0, Joined(more)) else Reassembled([], buf1, 0, false))
  {
    assert ([line] + more)[1..] == more;
    RoundOnPlainLine(buf, line, Joined(more), line + ['\n'] + Joined(more), Splice(buf, 0, line + ['\0']));
    CStringOfSpliced(buf, line);
  }

  /**
   * Text made of plain lines, parsed from an empty carry, yields exactly
   * those lines, does not overflow, and leaves no carry.
   */
  lemma {:induction false} PlainLinesRoundTrip(buf: seq<char>, lines: seq<string>)
    requires |buf| == PAGE_SIZE && AllPlain(lines)
    ensures var r := Reassemble(buf, 0, Joined(lines));
      r.lines == lines && !r.tooLong && r.tmpl == 0
    decreases |lines|
  {
    if lines != [] {
      var line, more := lines[0], lines[1..];
      assert lines == [line] + more;
      PlainFirstLine(buf, line, more);
      if more != [] {
        assert AllPlain(more) by {
          forall i | 0 <= i < |more| ensures Plain(more[i]) {
            assert more[i] == lines[i + 1];
          }
        }
        PlainLinesRoundTrip(Splice(buf, 0, line + ['\0']), more);
      }
    }
  }

  /**
   * The longest line dmfs_parse_page accepts from an empty carry has
   * PAGE_SIZE - 3 characters before its newline: one more and "Line too
   * long" is the outcome, with no line completed.
   */
  lemma LongestLine(buf: seq<char>, line: string, rest: seq<char>)
    requires |buf| == PAGE_SIZE && '\n' !in line
    ensures var r := Reassemble(buf, 0, line + ['\n'] + rest);
      (|line| <= PAGE_SIZE - 3 && '\0' !in line ==> |r.lines| >= 1 && r.lines[0] == line) &&
      (|line| >= PAGE_SIZE - 2 <==> r.tooLong && r.lines == [])
  {
    var chunk := line + ['\n'] + rest;
    if |line| <= PAGE_SIZE - 3 {
      RoundOnPlainLine(buf, line, rest, chunk, Splice(buf, 0, line + ['\0']));
      if '\0' !in line {
        CStringOfSpliced(buf, line);
      }
    } else {
      NewlineAfter(line, rest);
      var (copied, eol) := CopyCount(PAGE_SIZE - 1, chunk);
      assert copied == PAGE_SIZE - 1;
    }
  }

  /**
   * A chunk without a newline that fits after the carry sets the carry
   * length to the chunk's length alone: *tmpl is assigned the bytes just
   * copied, not increased by them.
   */
  lemma CarryLengthOverwritten(buf: seq<char>, tmpl: nat, chunk: seq<char>)
    requires |buf| == PAGE_SIZE && tmpl <= PAGE_SIZE - 2
    requires '\n' !in chunk && tmpl + |chunk| < PAGE_SIZE - 1
    ensures var r := Reassemble(buf, tmpl, chunk);
      r.lines == [] && !r.tooLong && r.tmpl == |chunk| && r.buf == Splice(buf, tmpl, chunk)
  {
    CopyCountNewline(PAGE_SIZE - tmpl - 1, chunk);
    assert chunk[..|chunk|] == chunk;
  }

  /**
   * On a whole page, the round that starts with the carry either ends at a
   * newline, which resets the carry, or overflows: a whole page always has
   * enough bytes to fill the scratch page after any carry.
   */
  lemma FullPageFirstRound(buf: seq<char>, tmpl: nat, chunk: seq<char>)
    requires |buf| == PAGE_SIZE && tmpl <= PAGE_SIZE - 2 && |chunk| == PAGE_CACHE_SIZE
    ensures var (copied, eol) := CopyCount(PAGE_SIZE - tmpl - 1, chunk);
      eol || tmpl + copied == PAGE_SIZE - 1
    ensures var r := Reassemble(buf, tmpl, chunk);
      r.tooLong || |r.lines| >= 1
  {
    var (copied, eol) := CopyCount(PAGE_SIZE - tmpl - 1, chunk);
    if eol && tmpl + copied != PAGE_SIZE - 1 {
      ReassembleUnfold(buf, tmpl, chunk, copied, eol, Splice(buf, tmpl, Written(chunk, copied, eol)));
    }
  }

  /** Two buffers that agree up to and including a NUL hold the same C string. */
  lemma {:induction false} CStringUpTo(x: seq<char>, y: seq<char>, k: nat)
    requires k < |x| && k < |y| && x[..k + 1] == y[..k + 1] && x[k] == '\0'
    ensures CString(x) == CString(y)
    decreases k
  {
    assert x[0] == x[..k + 1][0] == y[..k + 1][0] == y[0];
    if x[0] != '\0' {
      assert x[1..][..k] == x[..k + 1][1..] == y[..k + 1][1..] == y[1..][..k];
      CStringUpTo(x[1..], y[1..], k - 1);
    }
  }

  /**
   * What dmfs_parse_page makes of a chunk depends on the scratch buffer only
   * through its first *tmpl bytes, the carry: the lines, the overflow, the
   * carry length and the carried bytes come out the same for any two
   * buffers that agree on them. From an empty carry, nothing the buffer
   * held before is read, in particular not the NULs strsep leaves inside
   * the line just parsed.
   */
  lemma {:induction false} CarryBytesOnly(buf1: seq<char>, buf2: seq<char>, tmpl: nat, chunk: seq<char>)
    requires |buf1| == PAGE_SIZE && |buf2| == PAGE_SIZE && tmpl <= PAGE_SIZE - 2
    requires buf1[..tmpl] == buf2[..tmpl]
    ensures var r1 := Reassemble(buf1, tmpl, chunk);
      var r2 := Reassemble(buf2, tmpl, chunk);
      r1.lines == r2.lines && r1.tooLong == r2.tooLong && r1.tmpl == r2.tmpl &&
      r1.buf[..r1.tmpl] == r2.buf[..r2.tmpl]
    decreases |chunk|
  {
    var (copied, eol) := CopyCount(PAGE_SIZE - tmpl - 1, chunk);
    var w := Written(chunk, copied, eol);
    var b1, b2 := Splice(buf1, tmpl, w), Splice(buf2, tmpl, w);
    assert b1[..tmpl + copied] == buf1[..tmpl] + w == buf2[..tmpl] + w == b2[..tmpl + copied];
    if tmpl + copied != PAGE_SIZE - 1 {
      var tmpl1 := if eol then 0 else copied;
      ReassembleUnfold(buf1, tmpl, chunk, copied, eol, b1);
      ReassembleUnfold(buf2, tmpl, chunk, copied, eol, b2);
      if eol {
        assert b1[tmpl + copied - 1] == w[copied - 1] == '\0';
        CStringUpTo(b1, b2, tmpl + copied - 1);
      }
      assert b1[..tmpl1] == b1[..tmpl + copied][..tmpl1] == b2[..tmpl + copied][..tmpl1] == b2[..tmpl1];
      if |chunk| - copied > 0 {
        CarryBytesOnly(b1, b2, tmpl1, chunk[copied..]);
      }
    } else {
      assert b1[..tmpl] == b1[..tmpl + copied][..tmpl];
      assert b2[..tmpl] == b2[..tmpl + copied][..tmpl];
    }
  }

  /** The first newline of a concatenation: in the first part if it has one, else in the second. */
  lemma {:induction false} NewlineIndexConcat(a: seq<char>, b: seq<char>)
    ensures NewlineIndex(a + b) == if NewlineIndex(a) < |a| then NewlineIndex(a) else |a| + NewlineIndex(b)
  {
    if a == [] {
      assert a + b == b;
    } else if a[0] != '\n' {
      assert (a + b)[1..] == a[1..] + b;
      NewlineIndexConcat(a[1..], b);
    }
  }

  /** Splicing two runs one after the other is splicing their concatenation. */
  lemma SpliceConcat(buf: seq<char>, at: nat, x: seq<char>, y: seq<char>)
    requires at + |x| + |y| <= |buf|
    ensures Splice(Splice(buf, at, x), at + |x|, y) == Splice(buf, at, x + y)
  {
    var b1 := Splice(buf, at, x);
    assert b1[..at + |x|] == buf[..at] + x;
    assert b1[at + |x| + |y|..] == buf[at + |x| + |y|..];
  }

  /** The empty chunk completes no line and leaves the buffer as it was, with no carry. */
  lemma ReassembleEmpty(buf: seq<char>, tmpl: nat)
    requires |buf| == PAGE_SIZE && tmpl <= PAGE_SIZE - 2
    ensures Reassemble(buf, tmpl, []) == Reassembled([], buf, 0, false)
  {
    assert Splice(buf, tmpl, []) == buf;
  }

  /**
   * Two results a caller of dmfs_parse_page cannot tell apart: the same
   * lines and the same overflow, and, when nothing overflowed, the same
   * buffer and carry to go on with.
   */
  predicate SameOutcome(r1: Reassembled, r2: Reassembled)
  {
    r1.lines == r2.lines && r1.tooLong == r2.tooLong && (!r1.tooLong ==> r1.buf == r2.buf && r1.tmpl == r2.tmpl)
  }

  /** Text `a` from an empty carry, then, unless it overflowed, text `b` from where `a` left off. */
  function InTwoChunks(buf: seq<char>, a: seq<char>, b: seq<char>): (r: Reassembled)
    requires |buf| == PAGE_SIZE
    ensures |r.buf| == PAGE_SIZE
  {
    var ra := Reassemble(buf, 0, a);
    if ra.tooLong then ra else AfterLines(ra.lines, Reassemble(ra.buf, ra.tmpl, b))
  }

  /**
   * Reassembling text in two chunks, the second at least PAGE_SIZE - 1 bytes
   * long, is reassembling their concatenation: a line split between the
   * chunks is joined back, although the carry length is overwritten, because
   * the round that starts with the carry either completes the line or
   * overflows.
   */
  lemma {:induction false} ReassembleConcat(buf: seq<char>, a: seq<char>, b: seq<char>)
    requires |buf| == PAGE_SIZE && |b| >= PAGE_SIZE - 1
    ensures SameOutcome(Reassemble(buf, 0, a + b), InTwoChunks(buf, a, b))
    decreases |a|, 1
  {
    var (c, e) := CopyCount(PAGE_SIZE - 1, a);
    NewlineIndexConcat(a, b);
    if a == [] {
      ConcatEmpty(buf, b);
    } else if e && c != PAGE_SIZE - 1 {
      var buf1 := Splice(buf, 0, Written(a, c, true));
      var rest := a[c..];
      if rest != [] {
        ReassembleConcat(buf1, rest, b);
      }
      ConcatAfterLine(buf, a, b, c, buf1, rest);
    } else if e || |a| >= PAGE_SIZE - 1 {
      ConcatOverflow(buf, a, b, c, e);
    } else {
      ConcatCarry(buf, a, b);
    }
  }

  /** Nothing before the second part: both sides reassemble the second part alone. */
  lemma ConcatEmpty(buf: seq<char>, b: seq<char>)
    requires |buf| == PAGE_SIZE
    ensures SameOutcome(Reassemble(buf, 0, [] + b), InTwoChunks(buf, [], b))
  {
    assert [] + b == b;
    ReassembleEmpty(buf, 0);
    assert AfterLines([], Reassemble(buf, 0, b)) == Reassemble(buf, 0, b);
  }

  /**
   * The first part completes a line in the first round: both sides emit
   * that line and go on from an empty carry, where what is left of the
   * first part joins the second as before.
   */
  lemma ConcatAfterLine(buf: seq<char>, a: seq<char>, b: seq<char>, c: nat, buf1: seq<char>, rest: seq<char>)
    requires |buf| == PAGE_SIZE && |b| >= PAGE_SIZE - 1
    requires CopyCount(PAGE_SIZE - 1, a) == (c, true) && c != PAGE_SIZE - 1
    requires NewlineIndex(a + b) == NewlineIndex(a)
    requires buf1 == Splice(buf, 0, Written(a, c, true)) && rest == a[c..]
    requires rest != [] ==> SameOutcome(Reassemble(buf1, 0, rest + b), InTwoChunks(buf1, rest, b))
    ensures SameOutcome(Reassemble(buf, 0, a + b), InTwoChunks(buf, a, b))
  {
    ConcatFirstLine(buf, a, b, c, buf1, rest);
    if rest != [] {
      var inner := Reassemble(buf1, 0, rest);
      if !inner.tooLong {
        AfterLinesAssoc([CString(buf1)], inner.lines, Reassemble(inner.buf, inner.tmpl, b));
      }
    } else {
      assert rest + b == b;
    }
  }

  /** The first part completes a line in the first round: both sides go on after it from an empty carry. */
  lemma ConcatFirstLine(buf: seq<char>, a: seq<char>, b: seq<char>, c: nat, buf1: seq<char>, rest: seq<char>)
    requires |buf| == PAGE_SIZE && |b| >= PAGE_SIZE - 1
    requires CopyCount(PAGE_SIZE - 1, a) == (c, true) && c != PAGE_SIZE - 1
    requires NewlineIndex(a + b) == NewlineIndex(a)
    requires buf1 == Splice(buf, 0, Written(a, c, true)) && rest == a[c..]
    ensures Reassemble(buf, 0, a + b) == AfterLines([CString(buf1)], Reassemble(buf1, 0, rest + b))
    ensures Reassemble(buf, 0, a) ==
      AfterLines([CString(buf1)], if |rest| > 0 then Reassemble(buf1, 0, rest) else Reassembled([], buf1, 0, false))
  {
    assert CopyCount(PAGE_SIZE - 1, a + b) == (c, true);
    assert Written(a + b, c, true) == Written(a, c, true);
    assert (a + b)[c..] == rest + b;
    ReassembleEol(buf, 0, a + b, c, buf1, rest + b);
    ReassembleEol(buf, 0, a, c, buf1, rest);
  }

  /** The first part overflows in its first round, and so does the concatenation, with the same buffer. */
  lemma ConcatOverflow(buf: seq<char>, a: seq<char>, b: seq<char>, c: nat, e: bool)
    requires |buf| == PAGE_SIZE && |b| >= PAGE_SIZE - 1
    requires CopyCount(PAGE_SIZE - 1, a) == (c, e) && (e ==> c == PAGE_SIZE - 1) && (!e ==> |a| >= PAGE_SIZE - 1)
    requires NewlineIndex(a + b) == if NewlineIndex(a) < |a| then NewlineIndex(a) else |a| + NewlineIndex(b)
    ensures Reassemble(buf, 0, a + b) == Reassemble(buf, 0, a)
    ensures Reassemble(buf, 0, a).tooLong
  {
    assert c == PAGE_SIZE - 1;
    assert CopyCount(PAGE_SIZE - 1, a + b) == (c, e);
    assert Written(a + b, c, e) == Written(a, c, e);
  }

  /**
   * The first part is a partial line that fits: it is all carry, and the
   * round on the second part copies after it exactly what the round of the
   * concatenation copies after it.
   */
  lemma ConcatCarry(buf: seq<char>, a: seq<char>, b: seq<char>)
    requires |buf| == PAGE_SIZE && |b| >= PAGE_SIZE - 1
    requires 0 < |a| < PAGE_SIZE - 1 && NewlineIndex(a) == |a|
    requires NewlineIndex(a + b) == |a| + NewlineIndex(b)
    ensures SameOutcome(Reassemble(buf, 0, a + b), InTwoChunks(buf, a, b))
  {
    var bufA := CarryOnly(buf, a);
    var (c2, e2) := CopyCount(PAGE_SIZE - 1 - |a|, b);
    if |a| + c2 == PAGE_SIZE - 1 {
      CarryThenOverflow(buf, a, b);
    } else {
      CarryThenLine(buf, a, b, bufA);
    }
  }

  /** A partial line that fits is only carried: the whole of it, from the start of the buffer. */
  lemma CarryOnly(buf: seq<char>, a: seq<char>) returns (bufA: seq<char>)
    requires |buf| == PAGE_SIZE && 0 < |a| < PAGE_SIZE - 1 && NewlineIndex(a) == |a|
    ensures bufA == Splice(buf, 0, a) && Reassemble(buf, 0, a) == Reassembled([], bufA, |a|, false)
  {
    bufA := Splice(buf, 0, a);
    assert Written(a, |a|, false) == a;
  }

  /**
   * After a carry of |a| bytes, dmfs_copy on the second part stops where it
   * stops on the concatenation, |a| bytes earlier, and writes the same bytes
   * after the carry.
   */
  lemma CarryCounts(a: seq<char>, b: seq<char>) returns (c2: nat, e2: bool)
    requires 0 < |a| < PAGE_SIZE - 1 && NewlineIndex(a + b) == |a| + NewlineIndex(b)
    ensures (c2, e2) == CopyCount(PAGE_SIZE - 1 - |a|, b)
    ensures CopyCount(PAGE_SIZE - 1, a + b) == (|a| + c2, e2)
    ensures Written(a + b, |a| + c2, e2) == a + Written(b, c2, e2)
    ensures (a + b)[|a| + c2..] == b[c2..]
  {
    c2, e2 := CopyCount(PAGE_SIZE - 1 - |a|, b).0, CopyCount(PAGE_SIZE - 1 - |a|, b).1;
    assert (a + b)[|a| + c2..] == b[c2..];
    if e2 {
      assert (a + b)[..|a| + c2 - 1] == a + b[..c2 - 1];
    } else {
      assert (a + b)[..|a| + c2] == a + b[..c2];
    }
  }

  /** The carry and the second part overflow together, as the concatenation does. */
  lemma CarryThenOverflow(buf: seq<char>, a: seq<char>, b: seq<char>)
    requires |buf| == PAGE_SIZE && 0 < |a| < PAGE_SIZE - 1
    requires NewlineIndex(a + b) == |a| + NewlineIndex(b)
    requires |a| + CopyCount(PAGE_SIZE - 1 - |a|, b).0 == PAGE_SIZE - 1
    ensures var r := Reassemble(buf, 0, a + b); r.tooLong && r.lines == []
    ensures var r := Reassemble(Splice(buf, 0, a), |a|, b); r.tooLong && r.lines == []
  {
    var c2, e2 := CarryCounts(a, b);
  }

  /**
   * The carry and the second part complete a line in the first round: that
   * round writes the same buffer, resets the carry and leaves the same rest
   * as the first round of the concatenation.
   */
  lemma CarryThenLine(buf: seq<char>, a: seq<char>, b: seq<char>, bufA: seq<char>)
    requires |buf| == PAGE_SIZE && |b| >= PAGE_SIZE - 1 && 0 < |a| < PAGE_SIZE - 1
    requires NewlineIndex(a + b) == |a| + NewlineIndex(b)
    requires bufA == Splice(buf, 0, a) && |a| + CopyCount(PAGE_SIZE - 1 - |a|, b).0 != PAGE_SIZE - 1
    ensures Reassemble(buf, 0, a + b) == Reassemble(bufA, |a|, b)
  {
    var c2, e2 := CarryCounts(a, b);
    var w2 := Written(b, c2, e2);
    SpliceConcat(buf, 0, a, w2);
    var buf1 := Splice(bufA, |a|, w2);
    assert e2;
    ReassembleEol(buf, 0, a + b, |a| + c2, buf1, b[c2..]);
    ReassembleEol(bufA, |a|, b, c2, buf1, b[c2..]);
  }
}
