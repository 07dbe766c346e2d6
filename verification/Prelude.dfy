/** Shared result types, machine integers and the notion of a blank string. */
module Prelude {

  datatype Option<+T> = None | Some(value: T)

  datatype Result<+R, +E> = Success(value: R) | Failure(error: E) {
    predicate IsFailure() {
      Failure?
    }

    function PropagateFailure<U>(): Result<U, E>
      requires Failure?
    {
      Failure(error)
    }

    function Extract(): R
      requires Success?
    {
      value
    }
  }

  /** What a check says: for use with `:-` in a function that returns a `Result`. */
  datatype Check<+E> = Pass | Fail(reason: E) {
    predicate IsFailure() {
      Fail?
    }

    function PropagateFailure<U>(): Result<U, E>
      requires Fail?
    {
      Failure(reason)
    }
  }

  function Need<E>(condition: bool, reason: E): Check<E> {
    if condition then Pass else Fail(reason)
  }

  const U64_MAX: int := 0xFFFF_FFFF_FFFF_FFFF
  const U32_MAX: int := 0xFFFF_FFFF
  const I64_MAX: int := 0x7FFF_FFFF_FFFF_FFFF
  const I64_MIN: int := -0x8000_0000_0000_0000

  type u64 = n: int | 0 <= n <= U64_MAX
  type u32 = n: int | 0 <= n <= U32_MAX
  type i64 = n: int | I64_MIN <= n <= I64_MAX

  function SaturatingAdd(a: u64, b: nat): u64 {
    if a + b <= U64_MAX then a + b else U64_MAX
  }

  /** The characters with the Unicode White_Space property, which `str::trim` removes. */
  predicate IsWhitespace(c: char) {
    || '\t' <= c <= '\r' || c == ' ' || c == '\U{0085}' || c == '\U{00A0}' || c == '\U{1680}'
    || '\U{2000}' <= c <= '\U{200A}' || c == '\U{2028}' || c == '\U{2029}' || c == '\U{202F}'
    || c == '\U{205F}' || c == '\U{3000}'
  }

  /** `s.trim().is_empty()` */
  predicate IsBlank(s: string) {
    forall i | 0 <= i < |s| :: IsWhitespace(s[i])
  }

  function TrimStart(s: string): string {
    if s != "" && IsWhitespace(s[0]) then TrimStart(s[1..]) else s
  }

  function TrimEnd(s: string): string {
    if s != "" && IsWhitespace(s[|s| - 1]) then TrimEnd(s[..|s| - 1]) else s
  }

  function Trim(s: string): string {
    TrimEnd(TrimStart(s))
  }

  lemma {:induction false} TrimStartOfBlank(s: string)
    ensures IsBlank(s) <==> TrimStart(s) == ""
    ensures TrimStart(s) != "" ==> !IsWhitespace(TrimStart(s)[0])
  {
    if s != "" && IsWhitespace(s[0]) {
      TrimStartOfBlank(s[1..]);
    }
  }

  lemma {:induction false} TrimEndKeepsTheStart(s: string)
    requires s != "" && !IsWhitespace(s[0])
    ensures TrimEnd(s) != ""
  {
    if |s| > 1 {
      TrimEndKeepsTheStart(s[..|s| - 1]);
    }
  }

  /** Trimming leaves nothing exactly of a blank string. */
  lemma {:induction false} TrimOfBlank(s: string)
    ensures Trim(s) == "" <==> IsBlank(s)
  {
    TrimStartOfBlank(s);
    if TrimStart(s) != "" {
      TrimEndKeepsTheStart(TrimStart(s));
    }
  }

  /** The order of strings by their characters' code points. */
  predicate StringLeq(a: string, b: string) {
    a == "" || (b != "" && (a[0] < b[0] || (a[0] == b[0] && StringLeq(a[1..], b[1..]))))
  }

  lemma {:induction false} StringLeqIsTotal(a: string, b: string)
    ensures StringLeq(a, b) || StringLeq(b, a)
  {
    if a != "" && b != "" {
      StringLeqIsTotal(a[1..], b[1..]);
    }
  }
}
