/**
 * The cell keys of the board: a cell at `row`, `col` is identified by the
 * string `${row}-${col}`, and the press handler turns that string back into
 * two numbers with `coord.split("-").map(Number)`.
 */
module CoordKey {
  import opened JsNumbers

  /** The separator between the row and the column of a key. */
  const Sep: char := '-'

  predicate IsDigit(c: char) {
    '0' <= c <= '9'
  }

  predicate AllDigits(s: string) {
    forall k :: 0 <= k < |s| ==> IsDigit(s[k])
  }

  function DigitChar(d: nat): (c: char)
    requires d < 10
    ensures IsDigit(c)
  {
    ('0' as int + d) as char
  }

  function DigitValue(c: char): (d: nat)
    requires IsDigit(c)
    ensures d < 10
  {
    c as int - '0' as int
  }

  /** The decimal text of a non-negative integer, as a template literal prints it. */
  function Decimal(n: nat): (s: string)
    ensures |s| >= 1 && AllDigits(s)
    ensures |s| > 1 ==> s[0] != '0'
    decreases n
  {
    if n < 10 then [DigitChar(n)] else Decimal(n / 10) + [DigitChar(n % 10)]
  }

  /** The value of a string of decimal digits; the empty string is 0. */
  function DigitsValue(s: string): nat
    requires AllDigits(s)
    decreases |s|
  {
    if s == [] then 0 else DigitsValue(s[..|s| - 1]) * 10 + DigitValue(s[|s| - 1])
  }

  /**
   * `Number(s)` on a piece of a key: the digit strings (the empty string
   * included, which `Number` reads as 0) give their value, everything else NaN.
   */
  function ToNumber(s: string): (r: JsNum)
    ensures r.Num? <==> AllDigits(s)
    ensures r.Num? ==> r.n >= 0
    ensures s == [] ==> r == Num(0)
  {
    if AllDigits(s) then Num(DigitsValue(s)) else NaN
  }

  /** The pieces joined back with the separator between them. */
  function Join(parts: seq<string>, sep: char): string
    requires |parts| >= 1
    decreases |parts|
  {
    if |parts| == 1 then parts[0] else parts[0] + [sep] + Join(parts[1..], sep)
  }

  /**
   * `s.split(sep)` for a one-character separator: the maximal pieces between
   * separators, an empty piece wherever two separators touch or one stands at
   * an end, and a single empty piece for the empty string.
   */
  function Split(s: string, sep: char): (parts: seq<string>)
    ensures |parts| >= 1
    ensures forall k :: 0 <= k < |parts| ==> sep !in parts[k]
    ensures Join(parts, sep) == s
    decreases |s|
  {
    if s == [] then [[]]
    else
      var rest := Split(s[1..], sep);
      if s[0] == sep then
        assert s == [sep] + s[1..];
        [[]] + rest
      else
        var parts := [[s[0]] + rest[0]] + rest[1..];
        assert parts[1..] == rest[1..];
        assert s == [s[0]] + s[1..];
        parts
  }

  /** The key of the cell at `row`, `col`. */
  function Encode(row: nat, col: nat): (key: string)
    ensures Split(key, Sep) == [Decimal(row), Decimal(col)]
  {
    var r, c := Decimal(row), Decimal(col);
    assert Sep !in r && Sep !in c;
    SplitJoin([r, c], Sep);
    r + [Sep] + c
  }

  /**
   * `let [y, x] = key.split("-").map(Number)`: the first two pieces as
   * numbers; a missing second piece is `undefined`, which acts as NaN.
   */
  function Decode(key: string): (yx: (JsNum, JsNum))
    ensures yx.0.Num? ==> yx.0.n >= 0
    ensures yx.1.Num? ==> yx.1.n >= 0
  {
    var parts := Split(key, Sep);
    var nums := seq(|parts|, k requires 0 <= k < |parts| => ToNumber(parts[k]));
    (nums[0], if |nums| >= 2 then nums[1] else NaN)
  }

  /** Reading back the decimal text of `n` gives `n`. */
  lemma {:induction false} DecimalValue(n: nat)
    ensures DigitsValue(Decimal(n)) == n
    decreases n
  {
    if n >= 10 {
      var s := Decimal(n / 10) + [DigitChar(n % 10)];
      assert s[..|s| - 1] == Decimal(n / 10);
      DecimalValue(n / 10);
    }
  }

  /** Splitting a separator-free prefix glued onto `t` extends the first piece of `t`. */
  lemma {:induction false} SplitPrefix(a: string, t: string, sep: char)
    requires sep !in a
    ensures Split(a + t, sep) == [a + Split(t, sep)[0]] + Split(t, sep)[1..]
    decreases |a|
  {
    if a == [] {
      var ps := Split(t, sep);
      assert a + t == t && a + ps[0] == ps[0];
      assert ps == [ps[0]] + ps[1..];
    } else {
      assert (a + t)[1..] == a[1..] + t;
      SplitPrefix(a[1..], t, sep);
      assert [a[0]] + (a[1..] + Split(t, sep)[0]) == a + Split(t, sep)[0];
    }
  }

  /** Split undoes Join when no piece holds the separator. */
  lemma {:induction false} SplitJoin(parts: seq<string>, sep: char)
    requires |parts| >= 1
    requires forall k :: 0 <= k < |parts| ==> sep !in parts[k]
    ensures Split(Join(parts, sep), sep) == parts
    decreases |parts|
  {
    if |parts| == 1 {
      SplitPrefix(parts[0], [], sep);
      assert parts[0] + [] == parts[0];
    } else {
      var tail := Join(parts[1..], sep);
      SplitJoin(parts[1..], sep);
      assert Split([sep] + tail, sep) == [[]] + parts[1..];
      assert parts[0] + [sep] + tail == parts[0] + ([sep] + tail);
      SplitPrefix(parts[0], [sep] + tail, sep);
      assert parts[0] + [] == parts[0];
    }
  }

  /** `Number` reads the printed decimal of `n` as `n`. */
  lemma ToNumberDecimal(n: nat)
    ensures ToNumber(Decimal(n)) == Num(n)
  {
    DecimalValue(n);
  }

  /** The key built for a cell decodes to that cell's row and column. */
  lemma DecodeEncode(row: nat, col: nat)
    ensures Decode(Encode(row, col)) == (Num(row), Num(col))
  {
    ToNumberDecimal(row);
    ToNumberDecimal(col);
  }
}
