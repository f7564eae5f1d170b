// Shared vocabulary of the device-mapper table compiler: machine widths,
// the values the compiler records, and the C-string view of a byte buffer.

module DmTypes {

  datatype Option<+T> = None | Some(value: T)

  /** Size of a page and of a page-cache page on the driver's platform (i386). */
  const PAGE_SIZE: nat := 4096
  const PAGE_CACHE_SIZE: nat := 4096

  /** `unsigned long` (and so `offset_t`) wraps modulo 2^32 on the driver's platform. */
  const ULONG_MODULUS: nat := 0x1_0000_0000

  /** `loff_t` is a signed 64-bit file size. */
  const LOFF_LIMIT: nat := 0x8000_0000_0000_0000

  type Offset = x: int | 0 <= x < ULONG_MODULUS

  /** The opaque per-segment handle a target constructor hands back. */
  type Context = nat

  /** One segment of the table as the driver records it: its type and its context. */
  datatype Target = Target(typeName: string, context: Context)

  /** One entry of the per-table error list: line number and message. */
  datatype ErrorRecord = ErrorRecord(line: nat, msg: string)

  /**
   * Calls made into target-type code, in order. This is instrumentation: it
   * lets contracts say which lookups, constructors, destructors and releases
   * happened and in which order.
   */
  datatype Call =
    | Lookup(name: string, found: bool)
    | Construct(name: string, start: Offset, size: Offset, args: Option<string>)
    | Destroy(name: string, context: Context)
    | Put(name: string)

  /** What the constructor callback of a target type answers: a context, or a non-zero code. */
  datatype CtrResult = Built(context: Context) | Refused

  /** The opaque outcomes met while parsing one line: the constructor's and the table add's. */
  datatype LineOutcome = LineOutcome(ctr: CtrResult, addOk: bool)

  /** The outcomes for every line number: listed ones first, then one for all later lines. */
  datatype Outcomes = Outcomes(perLine: seq<LineOutcome>, beyond: LineOutcome)
  {
    function At(n: nat): LineOutcome
    {
      if n < |perLine| then perLine[n] else beyond
    }
  }

  /**
   * Everything parsing can change, as a value: the table's highs, targets and
   * error list, and the registry's reference counts (whose keys are the
   * registered type names) and call trace.
   */
  datatype State = State(
    highs: seq<Offset>,
    targets: seq<Target>,
    errors: seq<ErrorRecord>,
    refs: map<string, nat>,
    trace: seq<Call>)

  /** The string a C function sees at a `char *`: the bytes before the first NUL. */
  function CString(s: seq<char>): (r: seq<char>)
    ensures |r| <= |s|
  {
    if s == [] || s[0] == '\0' then [] else [s[0]] + CString(s[1..])
  }

  /** CString is the longest prefix without a NUL. */
  lemma {:induction false} CStringSpec(s: seq<char>)
    ensures var r := CString(s);
      r <= s && '\0' !in r && (|r| < |s| ==> s[|r|] == '\0')
  {
    if s != [] && s[0] != '\0' {
      CStringSpec(s[1..]);
    }
  }

  /** Reference counts after taking one more reference on `name`. */
  function Hold(refs: map<string, nat>, name: string): map<string, nat>
    requires name in refs
  {
    refs[name := refs[name] + 1]
  }

  /** Reference counts after giving back one reference on `name`. */
  function Drop(refs: map<string, nat>, name: string): map<string, nat>
    requires name in refs && refs[name] > 0
  {
    refs[name := refs[name] - 1]
  }

  function Min(a: nat, b: nat): nat
  {
    if a <= b then a else b
  }
}
