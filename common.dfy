/// Shapes shared by the server-side distribution engine and the client-side
/// utilities: optional values, results carrying an error, the reading-week
/// argument, ASCII case mapping and the decimal text of a whole number.
module Common {

  datatype Option<T> = None | Some(value: T) {
    /// The value, or `default` when absent (a JavaScript default parameter).
    function GetOr(default: T): T {
      if Some? then value else default
    }
  }

  /// The outcome of a call that either returns a value or throws.
  datatype Result<T, E> = Ok(value: T) | Err(error: E)

  /// The `readingWeeks` argument: an array of week numbers, an object
  /// `{ sem1, sem2 }` whose members may be absent, or any other value
  /// (null, undefined, a number, ...).
  datatype ReadingWeeks =
    | WeekList(weeks: seq<int>)
    | PerSemester(sem1: Option<seq<int>>, sem2: Option<seq<int>>)
    | Malformed

  /// `Array.prototype.find` with a predicate `key(item) === wanted`, as an
  /// index: the first item whose key is `wanted`, or none when no item's is.
  function FindFirst<T>(s: seq<T>, key: T -> string, wanted: string): (r: Option<nat>)
    ensures r.Some? ==> r.value < |s| && key(s[r.value]) == wanted
    ensures r.Some? ==> forall i :: 0 <= i < r.value ==> key(s[i]) != wanted
    ensures r.None? ==> forall i :: 0 <= i < |s| ==> key(s[i]) != wanted
  {
    if |s| == 0 then None
    else if key(s[0]) == wanted then Some(0)
    else
      var r := FindFirst(s[1..], key, wanted);
      if r.Some? then Some(r.value + 1) else None
  }

  /// `list && list.includes(x)` for an array member that may be absent.
  predicate Includes(list: Option<seq<int>>, x: int) {
    list.Some? && x in list.value
  }

  function LowerChar(c: char): char {
    if 'A' <= c <= 'Z' then (c as int + 32) as char else c
  }

  function UpperChar(c: char): char {
    if 'a' <= c <= 'z' then (c as int - 32) as char else c
  }

  /// `String.prototype.toLowerCase`, on the ASCII letters.
  function Lower(s: string): string {
    seq(|s|, i requires 0 <= i < |s| => LowerChar(s[i]))
  }

  predicate IsDigit(c: char) {
    '0' <= c <= '9'
  }

  function DigitChar(d: nat): (c: char)
    requires d < 10
    ensures IsDigit(c) && c as int - '0' as int == d
  {
    ('0' as int + d) as char
  }

  /// The decimal text of `n` without leading zeros, as JavaScript prints a
  /// non-negative integral number.
  function NatText(n: nat): (r: string)
    ensures |r| >= 1
    ensures forall i :: 0 <= i < |r| ==> IsDigit(r[i])
    ensures |r| > 1 ==> r[0] != '0'
  {
    if n < 10 then [DigitChar(n)] else NatText(n / 10) + [DigitChar(n % 10)]
  }
}
