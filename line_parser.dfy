// dmfs_parse_line and start_of_next_range: one line of table text
// "<start> <size> <type> <args>" becomes one segment appended to the table,
// or exactly one error record for that line.

module LineParser {
  import opened DmTypes
  import opened Tokenizer
  import opened DmInterfaces

  const NO_START := "No start argument"
  const NO_SIZE := "No size argument"
  const GAP := "Gap in table"
  const NO_TYPE := "No target type"
  const UNKNOWN_TYPE := "Target type unknown"
  const CTR_FAILED := "This message should never appear (constructor error)"
  const ADD_FAILED := "Error adding target to table"

  /**
   * start_of_next_range: 0 for an empty table, else one past the last high
   * (in unsigned arithmetic): the offset just before it is the last high.
   */
  function StartOfNextRange(highs: seq<Offset>): (r: Offset)
    ensures |highs| == 0 ==> r == 0
    ensures |highs| > 0 ==> (r + ULONG_MODULUS - 1) % ULONG_MODULUS == highs[|highs| - 1]
    ensures |highs| > 0 && highs[|highs| - 1] + 1 < ULONG_MODULUS ==> r > highs[|highs| - 1]
  {
    if |highs| == 0 then 0 else (highs[|highs| - 1] + 1) % ULONG_MODULUS
  }

  /** Record `msg` for line `num`: the goto-out path of dmfs_parse_line. */
  function Reject(s: State, num: nat, msg: string): State
  {
    s.(errors := s.errors + [ErrorRecord(num, msg)])
  }

  /** dm_put_target_type on a held reference. */
  function ReleaseType(s: State, name: string): State
    requires name in s.refs && s.refs[name] > 0
  {
    s.(refs := Drop(s.refs, name), trace := s.trace + [Call.Put(name)])
  }

  /** Where the checks before the registry lookup leave a line. */
  datatype Checked =
    | Rejected(msg: string)
    | Candidate(start: Offset, size: Offset, name: string, args: Option<string>)

  /**
   * The checks of dmfs_parse_line that need no registry: a start token, a
   * size token, the start at the next offset, a type token. The cursor left
   * after the type token is what the constructor receives as its arguments.
   */
  function CheckLine(highs: seq<Offset>, line: string): Checked
  {
    var (tok, p) := Token(Some(line));
    if tok.None? then Rejected(NO_START)
    else
      var (tok2, p2) := Token(p);
      if tok2.None? then Rejected(NO_SIZE)
      else if Strtoul(tok.value) != StartOfNextRange(highs) then Rejected(GAP)
      else
        var (tok3, p3) := Token(p2);
        if tok3.None? then Rejected(NO_TYPE)
        else Candidate(Strtoul(tok.value), Strtoul(tok2.value), tok3.value, p3)
  }

  /**
   * The registry half of dmfs_parse_line for a candidate segment: lookup,
   * constructor, table add, and the rollback by destructor and put.
   */
  function TypeStep(s: State, num: nat, start: Offset, size: Offset, name: string, args: Option<string>,
                    o: LineOutcome): State
  {
    var found := name in s.refs;
    var s1 := s.(trace := s.trace + [Call.Lookup(name, found)]);
    if !found then Reject(s1, num, UNKNOWN_TYPE)
    else
      var s2 := s1.(refs := Hold(s1.refs, name),
                    trace := s1.trace + [Call.Construct(name, start, size, args)]);
      match o.ctr
      case Refused => Reject(ReleaseType(s2, name), num, CTR_FAILED)
      case Built(context) =>
        var high := (start + (size - 1)) % ULONG_MODULUS;
        if o.addOk then s2.(highs := s2.highs + [high], targets := s2.targets + [Target(name, context)])
        else Reject(ReleaseType(s2.(trace := s2.trace + [Call.Destroy(name, context)]), name), num, ADD_FAILED)
  }

  /** What dmfs_parse_line does to the table, the error list and the registry, given the callbacks' answers. */
  function LineStep(s: State, num: nat, line: string, o: LineOutcome): State
  {
    match CheckLine(s.highs, line)
    case Rejected(msg) => Reject(s, num, msg)
    case Candidate(start, size, name, args) => TypeStep(s, num, start, size, name, args, o)
  }

  /**
   * The registry half of dmfs_parse_line: on success the segment is in the
   * table; on failure `msg` is the error the caller records, and everything
   * else is as TypeStep leaves it.
   */
  method ParseTarget(t: Table, reg: Registry, num: nat, start: Offset, size: Offset, name: string,
                     args: Option<string>, o: LineOutcome)
    returns (ok: bool, msg: string)
    modifies t`highs, t`targets, reg`refs, reg`trace
    ensures var r := TypeStep(old(Snapshot(t, reg)), num, start, size, name, args, o);
      if ok then Snapshot(t, reg) == r else Reject(Snapshot(t, reg), num, msg) == r
  {
    ghost var s0 := Snapshot(t, reg);
    TargetTypeCalls(s0, num, start, size, name, args, o);
    ok, msg := false, UNKNOWN_TYPE;
    var found := reg.Lookup(name);
    if found {
      msg := CTR_FAILED;
      var rv, context := reg.Construct(name, start, size, args, o.ctr);
      assert reg.refs == Hold(s0.refs, name);
      assert reg.trace == s0.trace + [Call.Lookup(name, true), Call.Construct(name, start, size, args)];
      if rv == 0 {
        msg := ADD_FAILED;
        // unsigned arithmetic: a size of 0 wraps
        var high: Offset := (start + (size - 1)) % ULONG_MODULUS;
        rv := t.AddTarget(high, name, context, o.addOk);
        if rv == 0 {
          ok := true;
          return;
        }
        reg.Destroy(name, context);
      }
      reg.Put(name);
    }
  }

  /** dmfs_parse_line: the checks in source order, each failure jumping to the error record. */
  method ParseLine(t: Table, reg: Registry, num: nat, str: string, o: LineOutcome)
    modifies t`highs, t`targets, t`errors, reg`refs, reg`trace
    ensures Snapshot(t, reg) == LineStep(old(Snapshot(t, reg)), num, str, o)
  {
    ghost var s0 := Snapshot(t, reg);
    var msg := NO_START;
    var tok, p := NextToken(Some(str));
    if tok.Some? {
      var start := Strtoul(tok.value);
      msg := NO_SIZE;
      tok, p := NextToken(p);
      if tok.Some? {
        var size := Strtoul(tok.value);
        msg := GAP;
        if start == StartOfNextRange(t.highs) {
          msg := NO_TYPE;
          tok, p := NextToken(p);
          if tok.Some? {
            assert CheckLine(s0.highs, str) == Candidate(start, size, tok.value, p);
            var ok;
            ok, msg := ParseTarget(t, reg, num, start, size, tok.value, p, o);
            if ok {
              return;
            }
          } else {
            assert CheckLine(s0.highs, str) == Rejected(msg);
          }
        } else {
          assert CheckLine(s0.highs, str) == Rejected(msg);
        }
      } else {
        assert CheckLine(s0.highs, str) == Rejected(msg);
      }
    } else {
      assert CheckLine(s0.highs, str) == Rejected(msg);
    }
    t.AddError(num, msg);
  }

  /**
   * The registry half of a line either adds one segment ending at
   * start + size - 1, keeping one more reference on its type and recording no
   * error, or records one error for line `num` and leaves the table and the
   * reference counts as they were.
   */
  lemma TypeStepEffect(s: State, num: nat, start: Offset, size: Offset, name: string, args: Option<string>,
                       o: LineOutcome)
    ensures var r := TypeStep(s, num, start, size, name, args, o);
      (r.errors == s.errors <==> |r.highs| == |s.highs| + 1) &&
      (r.errors != s.errors ==>
        |r.errors| == |s.errors| + 1 && r.errors[..|s.errors|] == s.errors && r.errors[|s.errors|].line == num &&
        r.highs == s.highs && r.targets == s.targets && r.refs == s.refs) &&
      (r.errors == s.errors ==>
        o.ctr.Built? && o.addOk && name in s.refs && r.refs == Hold(s.refs, name) &&
        r.highs == s.highs + [(start + (size - 1)) % ULONG_MODULUS] &&
        r.targets == s.targets + [Target(name, o.ctr.context)])
  {
    if name in s.refs {
      var s2 := s.(refs := Hold(s.refs, name), trace := s.trace + [Call.Lookup(name, true), Call.Construct(name, start, size, args)]);
      assert Drop(s2.refs, name) == s.refs;
    }
  }

  /**
   * dmfs_parse_line either adds one segment and records no error, or records
   * exactly one error for line `num` and leaves the table as it was;
   * reference counts change only when a segment is added, by the one
   * reference that segment keeps on its type.
   */
  lemma LineStepEffect(s: State, num: nat, line: string, o: LineOutcome)
    ensures var r := LineStep(s, num, line, o);
      (r.errors == s.errors <==> |r.highs| == |s.highs| + 1) &&
      (r.errors != s.errors ==>
        |r.errors| == |s.errors| + 1 && r.errors[..|s.errors|] == s.errors && r.errors[|s.errors|].line == num &&
        r.highs == s.highs && r.targets == s.targets && r.refs == s.refs) &&
      (r.errors == s.errors ==>
        |r.targets| == |s.targets| + 1 && r.highs[..|s.highs|] == s.highs && r.targets[..|s.targets|] == s.targets &&
        var name := r.targets[|s.targets|].typeName;
        name in s.refs && r.refs == Hold(s.refs, name))
  {
    match CheckLine(s.highs, line)
    case Rejected(msg) =>
    case Candidate(start, size, name, args) =>
      TypeStepEffect(s, num, start, size, name, args, o);
      var r := TypeStep(s, num, start, size, name, args, o);
      if r.errors == s.errors {
        assert r.highs[..|s.highs|] == s.highs;
        assert r.targets[..|s.targets|] == s.targets;
        assert r.targets[|s.targets|].typeName == name;
      }
  }

  /**
   * The checks before the registry, in source order, stated on the words of
   * the line: no word, one word, a start that is not the next offset, two
   * words only; otherwise the first three words give start, size and type.
   */
  lemma CheckLineWords(highs: seq<Offset>, line: string)
    ensures var c := CheckLine(highs, line); var w := Words(Some(line));
      var next := StartOfNextRange(highs);
      (c == Rejected(NO_START) <==> |w| == 0) &&
      (c == Rejected(NO_SIZE) <==> |w| == 1) &&
      (c == Rejected(GAP) <==> |w| >= 2 && Strtoul(w[0]) != next) &&
      (c == Rejected(NO_TYPE) <==> |w| == 2 && Strtoul(w[0]) == next) &&
      (c.Candidate? <==> |w| >= 3 && Strtoul(w[0]) == next) &&
      (c.Candidate? ==> c.start == Strtoul(w[0]) && c.size == Strtoul(w[1]) && c.name == w[2])
  {
    var (tok, p) := Token(Some(line));
    TokenWords(Some(line));
    if tok.Some? {
      var (tok2, p2) := Token(p);
      TokenWords(p);
      if tok2.Some? {
        TokenWords(p2);
      }
    }
  }

  /** The message of the first failing check before the registry lookup, on the words of a line. */
  function EarlyMessage(w: seq<string>, next: Offset): string
    requires |w| < 3 || Strtoul(w[0]) != next
  {
    if |w| == 0 then NO_START
    else if |w| == 1 then NO_SIZE
    else if Strtoul(w[0]) != next then GAP
    else NO_TYPE
  }

  /**
   * The first failing check decides the line's one error message, in source
   * order: "No start argument", "No size argument", "Gap in table", "No target
   * type"; on these paths the table and the registry are left alone and only
   * that error is recorded. A line passing them records none of these four.
   */
  lemma FirstFailingCheck(s: State, num: nat, line: string, o: LineOutcome)
    ensures var r := LineStep(s, num, line, o); var w := Words(Some(line));
      var next := StartOfNextRange(s.highs);
      ((|w| < 3 || Strtoul(w[0]) != next) ==> r == Reject(s, num, EarlyMessage(w, next))) &&
      ((|w| >= 3 && Strtoul(w[0]) == next) ==>
        r.errors == s.errors || r.errors[|s.errors|].msg in {UNKNOWN_TYPE, CTR_FAILED, ADD_FAILED})
  {
    CheckLineWords(s.highs, line);
    var c := CheckLine(s.highs, line);
    if c.Candidate? {
      assert LineStep(s, num, line, o) == TypeStep(s, num, c.start, c.size, c.name, c.args, o);
      TargetTypeCalls(s, num, c.start, c.size, c.name, c.args, o);
    }
  }

  /**
   * Past the first four checks, "Target type unknown" is recorded exactly
   * when the third word names no registered type.
   */
  lemma UnknownTypeCheck(s: State, num: nat, line: string, o: LineOutcome)
    ensures var r := LineStep(s, num, line, o); var w := Words(Some(line));
      r.errors == s.errors + [ErrorRecord(num, UNKNOWN_TYPE)] <==>
        |w| >= 3 && Strtoul(w[0]) == StartOfNextRange(s.highs) && w[2] !in s.refs
  {
    CheckLineWords(s.highs, line);
    var c := CheckLine(s.highs, line);
    if c.Candidate? {
      assert LineStep(s, num, line, o) == TypeStep(s, num, c.start, c.size, c.name, c.args, o);
      TargetTypeCalls(s, num, c.start, c.size, c.name, c.args, o);
      var r := LineStep(s, num, line, o);
      if c.name in s.refs && !(o.ctr.Built? && o.addOk) {
        assert r.errors[|s.errors|].msg in {CTR_FAILED, ADD_FAILED};
        assert r.errors[|s.errors|] != ErrorRecord(num, UNKNOWN_TYPE);
      }
    } else {
      var e := s.errors + [ErrorRecord(num, c.msg)];
      assert LineStep(s, num, line, o).errors == e;
      assert c.msg != UNKNOWN_TYPE;
      assert e[|s.errors|] != ErrorRecord(num, UNKNOWN_TYPE);
    }
  }

  /**
   * The calls into target-type code for a candidate segment, per outcome: a
   * failed lookup alone; lookup, constructor, put when the constructor fails;
   * lookup, constructor, destructor on the new context, put when the add
   * fails; lookup and constructor, and no put, when the segment is added.
   */
  lemma TargetTypeCalls(s: State, num: nat, start: Offset, size: Offset, name: string, args: Option<string>,
                        o: LineOutcome)
    ensures var r := TypeStep(s, num, start, size, name, args, o);
      var ctr := Call.Construct(name, start, size, args);
      (name !in s.refs ==>
         r.trace == s.trace + [Call.Lookup(name, false)] && r.refs == s.refs &&
         r.errors == s.errors + [ErrorRecord(num, UNKNOWN_TYPE)]) &&
      (name in s.refs && o.ctr.Refused? ==>
         r.trace == s.trace + [Call.Lookup(name, true), ctr, Call.Put(name)] && r.refs == s.refs &&
         r.errors == s.errors + [ErrorRecord(num, CTR_FAILED)]) &&
      (name in s.refs && o.ctr.Built? && !o.addOk ==>
         r.trace == s.trace + [Call.Lookup(name, true), ctr, Call.Destroy(name, o.ctr.context), Call.Put(name)] &&
         r.refs == s.refs && r.errors == s.errors + [ErrorRecord(num, ADD_FAILED)]) &&
      (name in s.refs && o.ctr.Built? && o.addOk ==>
         r.trace == s.trace + [Call.Lookup(name, true), ctr] && r.refs == Hold(s.refs, name) &&
         r.errors == s.errors)
  {
    if name in s.refs {
      var s2 := s.(refs := Hold(s.refs, name), trace := s.trace + [Call.Lookup(name, true), Call.Construct(name, start, size, args)]);
      assert Drop(s2.refs, name) == s.refs;
      assert s.trace + [Call.Lookup(name, true)] + [Call.Construct(name, start, size, args)] == s2.trace;
    }
  }

  /**
   * Where segment i of a table starts: one past the high of segment i - 1,
   * in unsigned arithmetic. This is start_of_next_range on highs[..i]
   * (SegmentStartIsNextRange); the indexed form gives the quantifier of
   * WellFormed a trigger free of sequence slices.
   */
  function SegmentStart(highs: seq<Offset>, i: nat): Offset
    requires i <= |highs|
  {
    if i == 0 then 0 else (highs[i - 1] + 1) % ULONG_MODULUS
  }

  /** Segment i starts where start_of_next_range puts it after the segments before it. */
  lemma SegmentStartIsNextRange(highs: seq<Offset>, i: nat)
    requires i <= |highs|
    ensures SegmentStart(highs, i) == StartOfNextRange(highs[..i])
  {
    if i > 0 {
      assert highs[..i][i - 1] == highs[i - 1];
    }
  }

  /**
   * The segments of a table given by its highs: segment i runs from
   * SegmentStart(highs, i) up to highs[i]. Well formed: every segment is
   * non-empty and none but the last ends at the top offset, so that the next
   * start never wraps back to 0.
   */
  ghost predicate WellFormed(highs: seq<Offset>)
  {
    (forall i {:trigger SegmentStart(highs, i)} :: 0 <= i < |highs| ==> SegmentStart(highs, i) <= highs[i]) &&
    (forall i :: 0 <= i < |highs| - 1 ==> highs[i] + 1 < ULONG_MODULUS)
  }

  /** In a well-formed table the highs are strictly ascending. */
  lemma {:induction false} WellFormedAscending(highs: seq<Offset>, i: nat, j: nat)
    requires WellFormed(highs)
    requires i < j < |highs|
    ensures highs[i] < highs[j]
    decreases j - i
  {
    assert SegmentStart(highs, j) <= highs[j];
    if i + 1 < j {
      WellFormedAscending(highs, i, j - 1);
    }
  }

  /** Appending a segment keeps the table well formed exactly when it starts at the next offset without wrapping. */
  lemma WellFormedAppend(highs: seq<Offset>, h: Offset)
    requires WellFormed(highs)
    ensures WellFormed(highs + [h]) <==>
      (highs != [] ==> highs[|highs| - 1] + 1 < ULONG_MODULUS) && StartOfNextRange(highs) <= h
  {
    var r := highs + [h];
    assert r[..|highs|] == highs;
    forall i | 0 <= i < |highs|
      ensures SegmentStart(r, i) == SegmentStart(highs, i) && r[i] == highs[i]
    {
    }
    SegmentStartIsNextRange(r, |highs|);
  }

  /** The high of a segment is at least its start exactly when start + size - 1 does not wrap. */
  lemma HighNotBelowStart(start: Offset, size: Offset)
    ensures start <= (start + (size - 1)) % ULONG_MODULUS <==>
      (1 <= size && start + size <= ULONG_MODULUS) || (size == 0 && start == 0)
  {
    var x := start + (size - 1);
    if size == 0 {
      assert x % ULONG_MODULUS == if start == 0 then ULONG_MODULUS - 1 else start - 1;
    } else if start + size <= ULONG_MODULUS {
      assert x % ULONG_MODULUS == x;
    } else {
      assert x % ULONG_MODULUS == x - ULONG_MODULUS;
    }
  }

  /** Appending the segment [start, start + size - 1] at the next offset: well formed exactly when it does not wrap. */
  lemma AppendSegmentWellFormed(highs: seq<Offset>, start: Offset, size: Offset)
    requires WellFormed(highs)
    requires highs != [] ==> highs[|highs| - 1] + 1 < ULONG_MODULUS
    requires start == StartOfNextRange(highs)
    ensures WellFormed(highs + [(start + (size - 1)) % ULONG_MODULUS]) <==>
      (1 <= size && start + size <= ULONG_MODULUS) || (size == 0 && start == 0)
  {
    WellFormedAppend(highs, (start + (size - 1)) % ULONG_MODULUS);
    HighNotBelowStart(start, size);
  }

  /** A line that adds a segment passed every check, and its segment ends at start + size - 1. */
  lemma AddedSegment(s: State, num: nat, line: string, o: LineOutcome)
    requires WellFormed(s.highs)
    requires s.highs != [] ==> s.highs[|s.highs| - 1] + 1 < ULONG_MODULUS
    requires LineStep(s, num, line, o).errors == s.errors
    ensures var c := CheckLine(s.highs, line);
      c.Candidate? && c.start == StartOfNextRange(s.highs) &&
      (WellFormed(LineStep(s, num, line, o).highs) <==>
         (1 <= c.size && c.start + c.size <= ULONG_MODULUS) || (c.size == 0 && c.start == 0))
  {
    var c := CheckLine(s.highs, line);
    assert c.Candidate?;
    var r := LineStep(s, num, line, o);
    assert r == TypeStep(s, num, c.start, c.size, c.name, c.args, o);
    TypeStepEffect(s, num, c.start, c.size, c.name, c.args, o);
    var h := (c.start + (c.size - 1)) % ULONG_MODULUS;
    assert r.highs == s.highs + [h];
    AppendSegmentWellFormed(s.highs, c.start, c.size);
  }

  /**
   * A segment the parser adds keeps a well-formed table well formed exactly
   * when it does not wrap: size at least 1 and start + size within the
   * offset range, or, on an empty table, size 0 (which wraps to the whole
   * range). The parser accepts a size of 0 everywhere: past the first
   * segment it leaves a segment whose high lies below its start.
   */
  lemma AddedSegmentWellFormed(s: State, num: nat, line: string, o: LineOutcome)
    requires WellFormed(s.highs)
    requires s.highs != [] ==> s.highs[|s.highs| - 1] + 1 < ULONG_MODULUS
    requires LineStep(s, num, line, o).errors == s.errors
    ensures var r := LineStep(s, num, line, o); var w := Words(Some(line));
      |w| >= 3 && Strtoul(w[0]) == StartOfNextRange(s.highs) &&
      (WellFormed(r.highs) <==>
         (1 <= Strtoul(w[1]) && Strtoul(w[0]) + Strtoul(w[1]) <= ULONG_MODULUS) ||
         (Strtoul(w[1]) == 0 && Strtoul(w[0]) == 0))
  {
    var c := CheckLine(s.highs, line);
    var w := Words(Some(line));
    AddedSegment(s, num, line, o);
    CheckLineWords(s.highs, line);
  }
}
