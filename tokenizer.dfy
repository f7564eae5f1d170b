// The line tokenizer of the table compiler: strsep over " \t", next_token,
// and the decimal reading of a field done by simple_strtoul.

module Tokenizer {
  import opened DmTypes

  predicate IsDelim(c: char)
  {
    c == ' ' || c == '\t'
  }

  /** Index of the first space or tab in `s`, or |s| when there is none. */
  function DelimIndex(s: string): (i: nat)
    ensures i <= |s|
  {
    if s == [] || IsDelim(s[0]) then 0 else 1 + DelimIndex(s[1..])
  }

  lemma {:induction false} DelimIndexSpec(s: string)
    ensures var i := DelimIndex(s);
      (forall k :: 0 <= k < i ==> !IsDelim(s[k])) && (i < |s| ==> IsDelim(s[i]))
  {
    if s != [] && !IsDelim(s[0]) {
      DelimIndexSpec(s[1..]);
    }
  }

  /** Length of a cursor, counting the NULL cursor as shorter than any string. */
  function CursorSize(p: Option<string>): nat
  {
    if p.None? then 0 else |p.value| + 1
  }

  /**
   * One call of `strsep(p, " \t")`: the field before the first delimiter,
   * and the cursor just past that delimiter (NULL when no delimiter is left).
   */
  function StrSep(p: Option<string>): (r: (Option<string>, Option<string>))
    ensures p.None? <==> r.0.None?
    ensures CursorSize(r.1) < CursorSize(p) || p.None?
  {
    match p
    case None => (None, None)
    case Some(s) =>
      var i := DelimIndex(s);
      if i < |s| then (Some(s[..i]), Some(s[i + 1..])) else (Some(s), None)
  }

  /** `s` with its leading spaces and tabs dropped. */
  function SkipDelims(s: string): (r: string)
    ensures |r| <= |s|
  {
    if s != [] && IsDelim(s[0]) then SkipDelims(s[1..]) else s
  }

  /** SkipDelims drops a run of spaces and tabs from the front and stops at anything else. */
  lemma {:induction false} SkipDelimsSpec(s: string)
    ensures var r := SkipDelims(s);
      r == s[|s| - |r|..] && (forall k :: 0 <= k < |s| - |r| ==> IsDelim(s[k])) && (r == [] || !IsDelim(r[0]))
  {
    if s != [] && IsDelim(s[0]) {
      SkipDelimsSpec(s[1..]);
      assert s[1..][|s| - 1 - |SkipDelims(s[1..])|..] == s[|s| - |SkipDelims(s)|..];
    }
  }

  /**
   * Reference meaning of next_token: skip spaces and tabs, take the maximal
   * run without them; the cursor continues after the one delimiter ending it.
   * No token (and a NULL cursor) exactly when only delimiters remain.
   */
  function Token(p: Option<string>): (r: (Option<string>, Option<string>))
    ensures r.0.None? ==> r.1.None?
    ensures r.0.Some? ==> p.Some? && r.0.value != [] && CursorSize(r.1) < CursorSize(p)
  {
    match p
    case None => (None, None)
    case Some(s) =>
      var t := SkipDelims(s);
      SkipDelimsSpec(s);
      if t == [] then (None, None)
      else
        var i := DelimIndex(t);
        if i < |t| then (Some(t[..i]), Some(t[i + 1..])) else (Some(t), None)
  }

  /**
   * next_token returns no token, and a NULL cursor, exactly when only spaces
   * and tabs remain; otherwise a non-empty token without spaces or tabs.
   */
  lemma TokenFound(p: Option<string>)
    ensures var (tok, rest) := Token(p);
      (tok.None? <==> (p.None? || forall k :: 0 <= k < |p.value| ==> IsDelim(p.value[k]))) &&
      (tok.None? ==> rest.None?) &&
      (tok.Some? ==> tok.value != [] && forall k :: 0 <= k < |tok.value| ==> !IsDelim(tok.value[k]))
  {
    if p.Some? {
      var s := p.value;
      var t := SkipDelims(s);
      SkipDelimsSpec(s);
      if t == [] {
        assert forall k :: 0 <= k < |s| ==> IsDelim(s[k]);
      } else {
        assert !IsDelim(s[|s| - |t|]);
        var i := DelimIndex(t);
        DelimIndexSpec(t);
        assert i > 0;
      }
    }
  }

  /**
   * Where the token sits in the string: after a run of delimiters, and either
   * at the very end or followed by one delimiter and then the new cursor.
   */
  lemma TokenShape(s: string)
    ensures var (tok, rest) := Token(Some(s));
      tok.Some? ==>
        var n := |s| - |tok.value| - (if rest.Some? then |rest.value| + 1 else 0);
        0 <= n && n + |tok.value| <= |s| &&
        (forall k :: 0 <= k < n ==> IsDelim(s[k])) &&
        s[n..n + |tok.value|] == tok.value &&
        (rest.None? ==> n + |tok.value| == |s|) &&
        (rest.Some? ==> IsDelim(s[n + |tok.value|]) && s[n + |tok.value| + 1..] == rest.value)
  {
    var t := SkipDelims(s);
    var n := |s| - |t|;
    SkipDelimsSpec(s);
    if t != [] {
      var i := DelimIndex(t);
      DelimIndexSpec(t);
      assert t == s[n..];
      if i < |t| {
        assert Token(Some(s)) == (Some(t[..i]), Some(t[i + 1..]));
        assert s[n..n + i] == t[..i];
        assert s[n + i] == t[i];
        assert s[n + i + 1..] == t[i + 1..];
      } else {
        assert Token(Some(s)) == (Some(t), None);
        assert s[n..n + |t|] == t;
      }
    }
  }

  /** One strsep step either yields the empty field, skipped by next_token, or next_token's answer. */
  lemma {:induction false} TokenUnfold(p: Option<string>)
    ensures var (r, q) := StrSep(p);
      Token(p) == if r == Some([]) then Token(q) else (r, q)
  {
    match p
    case None =>
    case Some(s) =>
      if s == [] {
        assert StrSep(p) == (Some([]), None);
        assert Token(p) == (None, None);
      } else if IsDelim(s[0]) {
        assert DelimIndex(s) == 0;
        assert StrSep(p) == (Some([]), Some(s[1..]));
        assert SkipDelims(s) == SkipDelims(s[1..]);
      } else {
        assert SkipDelims(s) == s;
        assert StrSep(p).0 != Some([]);
      }
  }

  /** next_token: repeat strsep while it yields empty fields. */
  method NextToken(p: Option<string>) returns (tok: Option<string>, rest: Option<string>)
    ensures (tok, rest) == Token(p)
  {
    TokenUnfold(p);
    tok, rest := StrSep(p).0, StrSep(p).1;
    while tok.Some? && tok.value == []
      invariant Token(p) == if tok == Some([]) then Token(rest) else (tok, rest)
      invariant tok == Some([]) && rest.None? ==> Token(p) == (None, None)
      decreases CursorSize(rest), if tok == Some([]) then 1 else 0
    {
      TokenUnfold(rest);
      tok, rest := StrSep(rest).0, StrSep(rest).1;
    }
  }

  /** The fields strsep cuts `s` into, empty ones included. */
  function Split(s: string): (r: seq<string>)
    ensures |r| >= 1
    decreases |s|
  {
    var i := DelimIndex(s);
    if i < |s| then [s[..i]] + Split(s[i + 1..]) else [s]
  }

  function NonEmpty(ws: seq<string>): (r: seq<string>)
    ensures forall k :: 0 <= k < |r| ==> r[k] != []
  {
    if ws == [] then []
    else if ws[0] == [] then NonEmpty(ws[1..])
    else [ws[0]] + NonEmpty(ws[1..])
  }

  /** The words of the text at a cursor: its non-empty whitespace-separated fields. */
  function Words(p: Option<string>): seq<string>
  {
    if p.None? then [] else NonEmpty(Split(p.value))
  }

  /** A leading delimiter changes neither the words nor the next token. */
  lemma DelimHead(s: string)
    requires s != [] && IsDelim(s[0])
    ensures Words(Some(s)) == Words(Some(s[1..]))
    ensures Token(Some(s)) == Token(Some(s[1..]))
  {
    assert DelimIndex(s) == 0;
    assert Split(s) == [[]] + Split(s[1..]);
    assert SkipDelims(s) == SkipDelims(s[1..]);
  }

  /** At a word, next_token returns that word and the words after it remain. */
  lemma WordHead(s: string)
    requires s != [] && !IsDelim(s[0])
    ensures var (tok, rest) := Token(Some(s));
      Words(Some(s)) == [tok.value] + Words(rest)
  {
    var i := DelimIndex(s);
    assert SkipDelims(s) == s;
    assert i > 0 && s[..i] != [];
    if i < |s| {
      assert Split(s) == [s[..i]] + Split(s[i + 1..]);
      assert NonEmpty(Split(s)) == [s[..i]] + NonEmpty(Split(s[i + 1..]));
      assert Token(Some(s)) == (Some(s[..i]), Some(s[i + 1..]));
    } else {
      assert Split(s) == [s];
      assert NonEmpty([s]) == [s] + NonEmpty([]);
      assert Token(Some(s)) == (Some(s), None);
    }
  }

  /** next_token hands out the words of the text one by one. */
  lemma {:induction false} TokenWords(p: Option<string>)
    ensures var (tok, rest) := Token(p);
      (tok.None? <==> Words(p) == []) &&
      (tok.Some? ==> Words(p) != [] && tok.value == Words(p)[0] && Words(rest) == Words(p)[1..])
    decreases CursorSize(p)
  {
    match p
    case None =>
    case Some(s) =>
      if s == [] {
        assert Split(s) == [[]];
      } else if IsDelim(s[0]) {
        DelimHead(s);
        TokenWords(Some(s[1..]));
      } else {
        WordHead(s);
      }
  }

  predicate IsDigit(c: char)
  {
    '0' <= c <= '9'
  }

  /** The leading decimal digits of `s`. */
  function LeadingDigits(s: string): (d: string)
    ensures |d| <= |s|
  {
    if s == [] || !IsDigit(s[0]) then [] else [s[0]] + LeadingDigits(s[1..])
  }

  /** LeadingDigits is the longest prefix made of digits. */
  lemma {:induction false} LeadingDigitsSpec(s: string)
    ensures var d := LeadingDigits(s);
      d <= s && (forall k :: 0 <= k < |d| ==> IsDigit(d[k])) && (|d| < |s| ==> !IsDigit(s[|d|]))
  {
    if s != [] && IsDigit(s[0]) {
      LeadingDigitsSpec(s[1..]);
    }
  }

  /** The number a string of decimal digits denotes. */
  function DecimalValue(d: string): nat
    requires forall k :: 0 <= k < |d| ==> IsDigit(d[k])
  {
    if d == [] then 0
    else DecimalValue(d[..|d| - 1]) * 10 + DigitValue(d[|d| - 1])
  }

  function DigitValue(c: char): (v: nat)
    requires IsDigit(c)
    ensures v < 10
  {
    c as int - '0' as int
  }

  /**
   * `simple_strtoul(tok, NULL, 10)`: the value of the leading decimal digits,
   * wrapped to the width of `unsigned long`; 0 when there is no leading digit.
   */
  function Strtoul(s: string): (r: Offset)
    ensures s == [] || !IsDigit(s[0]) ==> r == 0
  {
    LeadingDigitsSpec(s);
    DecimalValue(LeadingDigits(s)) % ULONG_MODULUS
  }

  /** The decimal digits of `n`, most significant first, without leading zeros. */
  function DecimalString(n: nat): (d: string)
    ensures |d| >= 1 && forall k :: 0 <= k < |d| ==> IsDigit(d[k])
  {
    var c := ('0' as int + n % 10) as char;
    if n < 10 then [c] else DecimalString(n / 10) + [c]
  }

  /**
   * simple_strtoul reads back a number written in decimal, up to the first
   * non-digit, wrapped to the width of `unsigned long`.
   */
  lemma StrtoulDecimal(n: nat, rest: string)
    requires rest == [] || !IsDigit(rest[0])
    ensures Strtoul(DecimalString(n) + rest) == n % ULONG_MODULUS
  {
    DigitsThenRest(DecimalString(n), rest);
    DecimalValueOf(n);
  }

  lemma {:induction false} DigitsThenRest(d: string, rest: string)
    requires forall k :: 0 <= k < |d| ==> IsDigit(d[k])
    requires rest == [] || !IsDigit(rest[0])
    ensures LeadingDigits(d + rest) == d
  {
    if d != [] {
      assert (d + rest)[1..] == d[1..] + rest;
      DigitsThenRest(d[1..], rest);
    } else {
      assert d + rest == rest;
    }
  }

  lemma {:induction false} DecimalValueOf(n: nat)
    ensures DecimalValue(DecimalString(n)) == n
  {
    var d := DecimalString(n);
    assert d[..|d| - 1] == if n < 10 then [] else DecimalString(n / 10);
    if n >= 10 {
      DecimalValueOf(n / 10);
    }
  }
}
