/** The few JavaScript values and built-in operations the admin handlers
    depend on: request and document fields that may be absent or null,
    truthiness, comparison of a date with a number, `Math.floor` over
    `Math.random`, `Number.prototype.toString` and `String.prototype.split`. */
module JsValues {

  datatype Option<T> = None | Some(value: T)

  /** A field of a parsed JSON request body or of a loaded document.
      Numbers in the bodies seen here are integral. */
  datatype JsValue = Undefined | Null | Str(s: string) | Num(n: int)

  /** A `Date` field of a document: never set (or unset), set to null,
      or holding a time value in milliseconds. */
  datatype DateField = NoDate | NullDate | Date(ms: int)

  /** `!v`: the falsy values among those above. */
  predicate Falsy(v: JsValue) {
    v == Undefined || v == Null || v == Str("") || v == Num(0)
  }

  /** Only the empty string is a falsy string; absent and null are falsy,
      and a number is falsy exactly when it is zero. */
  lemma FalsyValues(s: string, n: int)
    ensures Falsy(Str(s)) <==> s == ""
    ensures Falsy(Num(n)) <==> n == 0
    ensures Falsy(Undefined) && Falsy(Null)
  {
  }

  /** The number a date field converts to in a relational comparison;
      None stands for NaN (undefined converts to NaN, null to 0). */
  function TimeValue(d: DateField): (t: Option<int>)
    ensures t.None? <==> d == NoDate
  {
    match d
    case NoDate => None
    case NullDate => Some(0)
    case Date(ms) => Some(ms)
  }

  /** `d < now`, equivalently `now > d`: false whenever a side is NaN. */
  predicate ExpiredBy(d: DateField, now: int) {
    TimeValue(d).Some? && TimeValue(d).value < now
  }

  lemma ExpiryIsExclusive(ms: int, now: int)
    ensures ExpiredBy(Date(ms), now) <==> now > ms
    ensures !ExpiredBy(NoDate, now)
    ensures ExpiredBy(NullDate, now) <==> now > 0
  {
  }

  // ---------------------------------------------------------------------
  // One-time codes: Math.floor(100000 + Math.random() * 900000).toString()

  /** `Math.floor(100000 + random * 900000)` for a `Math.random()` result. */
  function DrawCode(random: real): (n: nat)
    requires 0.0 <= random < 1.0
    ensures 100000 <= n <= 999999
  {
    var x := 100000.0 + random * 900000.0;
    assert 100000.0 <= x < 1000000.0;
    x.Floor
  }

  predicate IsDigit(c: char) {
    '0' <= c <= '9'
  }

  predicate AllDigits(s: string) {
    forall i :: 0 <= i < |s| ==> IsDigit(s[i])
  }

  function DigitChar(d: nat): (c: char)
    requires d < 10
    ensures IsDigit(c) && (c == '0' <==> d == 0)
  {
    (('0' as int) + d) as char
  }

  function DigitValue(c: char): (d: nat)
    requires IsDigit(c)
    ensures d < 10 && DigitChar(d) == c
  {
    (c as int) - ('0' as int)
  }

  /** `n.toString()` for a non-negative integral number: its decimal
      digits, most significant first, with no leading zero. */
  function DecimalString(n: nat): (s: string)
    ensures |s| >= 1 && AllDigits(s)
    ensures n > 0 ==> s[0] != '0'
    decreases n
  {
    if n < 10 then [DigitChar(n)] else DecimalString(n / 10) + [DigitChar(n % 10)]
  }

  /** The number a string of decimal digits denotes. */
  function DecimalValue(s: string): nat
    requires AllDigits(s)
  {
    if s == [] then 0 else DecimalValue(s[..|s| - 1]) * 10 + DigitValue(s[|s| - 1])
  }

  /** Reading back the digits that toString wrote gives the number. */
  lemma {:induction false} DecimalRoundTrip(n: nat)
    ensures DecimalValue(DecimalString(n)) == n
    decreases n
  {
    var s := DecimalString(n);
    if n >= 10 {
      DecimalRoundTrip(n / 10);
      assert s[..|s| - 1] == DecimalString(n / 10);
    } else {
      assert s[..|s| - 1] == [];
    }
  }

  /** Distinct numbers give distinct codes. */
  lemma DecimalStringInjective(m: nat, n: nat)
    ensures DecimalString(m) == DecimalString(n) ==> m == n
  {
    DecimalRoundTrip(m);
    DecimalRoundTrip(n);
  }

  function Pow10(k: nat): nat
  {
    if k == 0 then 1 else 10 * Pow10(k - 1)
  }

  /** A number with k digits is written with k characters. */
  lemma {:induction false} DecimalLength(n: nat, k: nat)
    requires k >= 1 && Pow10(k - 1) <= n < Pow10(k)
    ensures |DecimalString(n)| == k
    decreases k
  {
    assert Pow10(1) == 10;
    PowAtLeastTen(k - 1);
    if n >= 10 {
      DecimalLength(n / 10, k - 1);
    }
  }

  lemma {:induction false} PowAtLeastTen(k: nat)
    ensures k >= 1 ==> Pow10(k) >= 10
  {
    if k > 1 { PowAtLeastTen(k - 1); }
  }

  /** The shape of every one-time code: six decimal digits, the first not zero. */
  predicate IsCode(s: string) {
    |s| == 6 && AllDigits(s) && s[0] != '0'
  }

  /** The code a `Math.random()` result produces: six decimal digits, the
      first not zero, that read back as the number drawn. */
  function IssuedCode(random: real): (code: string)
    requires 0.0 <= random < 1.0
    ensures IsCode(code)
    ensures DecimalValue(code) == DrawCode(random)
    ensures 100000 <= DecimalValue(code) <= 999999
  {
    var n := DrawCode(random);
    assert Pow10(5) == 100000 && Pow10(6) == 1000000;
    DecimalLength(n, 6);
    DecimalRoundTrip(n);
    DecimalString(n)
  }

  // ---------------------------------------------------------------------
  // String.prototype.split with a one-character separator

  /** `s.split(sep)`: the pieces between occurrences of sep, empty ones
      included; a string without sep gives one piece. */
  function Split(s: string, sep: char): (parts: seq<string>)
    ensures |parts| >= 1
    ensures forall i :: 0 <= i < |parts| ==> sep !in parts[i]
    decreases |s|
  {
    if s == [] then [[]]
    else
      var rest := Split(s[1..], sep);
      if s[0] == sep then [[]] + rest else [[s[0]] + rest[0]] + rest[1..]
  }

  /** `parts.join(sep)` */
  function Join(parts: seq<string>, sep: char): string
    requires |parts| >= 1
  {
    if |parts| == 1 then parts[0] else parts[0] + [sep] + Join(parts[1..], sep)
  }

  /** Joining the pieces with the separator gives back the string. */
  lemma {:induction false} SplitJoin(s: string, sep: char)
    ensures Join(Split(s, sep), sep) == s
    decreases |s|
  {
    if s != [] {
      var rest := Split(s[1..], sep);
      SplitJoin(s[1..], sep);
      if s[0] == sep {
        assert Split(s, sep)[1..] == rest;
      } else {
        var parts := Split(s, sep);
        if |rest| == 1 {
          assert parts == [[s[0]] + rest[0]];
        } else {
          assert parts[1..] == rest[1..];
          assert Join(parts, sep) == [s[0]] + (rest[0] + [sep] + Join(rest[1..], sep));
        }
      }
    }
  }

  /** A piece free of the separator followed by the separator is split off whole. */
  lemma {:induction false} SplitAfterPiece(a: string, sep: char, b: string)
    requires sep !in a
    ensures Split(a + [sep] + b, sep) == [a] + Split(b, sep)
    decreases |a|
  {
    if a == [] {
      assert a + [sep] + b == [sep] + b;
      assert ([sep] + b)[1..] == b;
    } else {
      SplitAfterPiece(a[1..], sep, b);
      assert (a + [sep] + b)[1..] == a[1..] + [sep] + b;
      assert [a[0]] + a[1..] == a;
    }
  }

  /** A string free of the separator is one piece. */
  lemma {:induction false} SplitWhole(a: string, sep: char)
    requires sep !in a
    ensures Split(a, sep) == [a]
    decreases |a|
  {
    if a != [] {
      SplitWhole(a[1..], sep);
      assert [a[0]] + a[1..] == a;
    }
  }
}
