/**
 * Integer formatting of the log stream: digits are produced backwards with a truncating
 * remainder, straight into the fixed buffer, and reversed in place.
 */
module LogStream {
  const MAX_NUMERIC_SIZE: nat := 48
  const DIGIT_TABLE := "9876543210123456789"

  // ---- The decimal notation, independent of the algorithm ----

  function Digit(d: nat): char
    requires d < 10
  {
    "0123456789"[d]
  }

  function Digits(n: nat): (s: string)
    ensures s != ""
  {
    if n < 10 then [Digit(n)] else Digits(n / 10) + [Digit(n % 10)]
  }

  function Abs(n: int): nat
  {
    if n < 0 then -n else n
  }

  function Decimal(n: int): string
  {
    if n < 0 then "-" + Digits(-n) else Digits(n)
  }

  predicate IsDigit(c: char)
  {
    '0' <= c <= '9'
  }

  predicate AllDigits(s: string)
  {
    forall i :: 0 <= i < |s| ==> IsDigit(s[i])
  }

  /** The value of a string of digits. */
  function Value(s: string): nat
    requires AllDigits(s)
  {
    if s == "" then 0 else Value(s[..|s| - 1]) * 10 + (s[|s| - 1] as int - '0' as int)
  }

  predicate CanonicalNat(s: string)
  {
    s != "" && AllDigits(s) && (s[0] == '0' ==> |s| == 1)
  }

  /** Canonical decimal text: no superfluous zero, no minus zero. */
  predicate Canonical(s: string)
  {
    if s != "" && s[0] == '-' then CanonicalNat(s[1..]) && s[1..] != "0" else CanonicalNat(s)
  }

  function Parse(s: string): int
    requires Canonical(s)
  {
    if s[0] == '-' then 0 - Value(s[1..]) else Value(s)
  }

  lemma {:induction false} DigitsRoundTrip(n: nat)
    ensures CanonicalNat(Digits(n)) && Value(Digits(n)) == n
    ensures n > 0 ==> Digits(n)[0] != '0'
  {
    if n < 10 {
      assert Digits(n)[..0] == "";
    } else {
      DigitsRoundTrip(n / 10);
      var s := Digits(n);
      assert s[..|s| - 1] == Digits(n / 10);
      assert AllDigits(s);
    }
  }

  lemma {:induction false} ValuePositive(s: string)
    requires CanonicalNat(s) && s != "0"
    ensures Value(s) > 0
    decreases |s|
  {
    if |s| == 1 {
      assert s[..0] == "";
      assert s[0] != '0';
    } else {
      ValuePositive(s[..|s| - 1]);
    }
  }

  lemma {:induction false} ValueRoundTrip(s: string)
    requires CanonicalNat(s)
    ensures Digits(Value(s)) == s
    decreases |s|
  {
    var init := s[..|s| - 1];
    var last := s[|s| - 1] as int - '0' as int;
    assert IsDigit(s[|s| - 1]) && Digit(last) == s[|s| - 1];
    if |s| > 1 {
      ValuePositive(init);
      ValueRoundTrip(init);
      assert Value(s) / 10 == Value(init) && Value(s) % 10 == last;
    }
  }

  /** The text is canonical and reads back as the number, for every integer. */
  lemma DecimalRoundTrip(n: int)
    ensures Canonical(Decimal(n)) && Parse(Decimal(n)) == n
  {
    DigitsRoundTrip(Abs(n));
    if n < 0 {
      assert Decimal(n)[1..] == Digits(-n);
      assert Value("0") == 0 by { assert "0"[..0] == ""; }
    }
  }

  /** Canonical texts and numbers correspond one to one. */
  lemma ParseRoundTrip(s: string)
    requires Canonical(s)
    ensures Decimal(Parse(s)) == s
  {
    if s[0] == '-' {
      ValuePositive(s[1..]);
      ValueRoundTrip(s[1..]);
      assert s == "-" + s[1..];
    } else {
      ValueRoundTrip(s);
    }
  }

  function Pow10(k: nat): nat
  {
    if k == 0 then 1 else 10 * Pow10(k - 1)
  }

  lemma {:induction false} DigitsLength(n: nat, k: nat)
    requires k > 0 && n < Pow10(k)
    ensures |Digits(n)| <= k
  {
    if n >= 10 {
      assert k > 1 by { assert Pow10(1) == 10; }
      DigitsLength(n / 10, k - 1);
    }
  }

  const MIN_INT64: int := -0x8000_0000_0000_0000
  const MAX_UINT64: int := 0xffff_ffff_ffff_ffff

  /** Digits, sign and the trailing NUL of any 64-bit value fit the reserved space. */
  lemma DecimalFits(n: int)
    requires MIN_INT64 <= n <= MAX_UINT64
    ensures |Decimal(n)| + 1 <= 22 < MAX_NUMERIC_SIZE && |Digits(Abs(n))| <= 20
  {
    assert Pow10(20) == 100_000_000_000_000_000_000 by {
      assert Pow10(4) == 10000 by { assert Pow10(2) == 100 by { assert Pow10(1) == 10; } }
      PowAdd(4, 4);
      PowAdd(8, 8);
      PowAdd(16, 4);
    }
    DigitsLength(Abs(n), 20);
  }

  lemma {:induction false} PowAdd(a: nat, b: nat)
    ensures Pow10(a + b) == Pow10(a) * Pow10(b)
  {
    if a > 0 {
      PowAdd(a - 1, b);
      assert Pow10(a + b) == 10 * Pow10(a - 1 + b);
    }
  }

  // ---- The algorithm ----

  /** C's division and remainder, which round towards zero. */
  function TruncDiv(n: int, d: int): int
    requires d > 0
  {
    if n < 0 then -(-n / d) else n / d
  }

  function TruncMod(n: int, d: int): int
    requires d > 0
  {
    n - d * TruncDiv(n, d)
  }

  lemma TruncAbs(n: int)
    ensures Abs(TruncDiv(n, 10)) == Abs(n) / 10
    ensures Abs(TruncMod(n, 10)) == Abs(n) % 10 && -9 <= TruncMod(n, 10) <= 9
    ensures DIGIT_TABLE[9 + TruncMod(n, 10)] == Digit(Abs(n) % 10)
  {
  }

  function Reversed(s: string): (r: string)
    ensures |r| == |s|
  {
    seq(|s|, i requires 0 <= i < |s| => s[|s| - 1 - i])
  }

  lemma ReversedSnoc(s: string, c: char)
    ensures Reversed(s + [c]) == [c] + Reversed(s)
  {
  }

  /** One turn of the digit loop: the last digit moves from the number to the text. */
  lemma DigitStep(digits: string, n: int, text: string)
    requires digits == Digits(Abs(n)) + Reversed(text)
    ensures DIGIT_TABLE[9 + TruncMod(n, 10)] == Digit(Abs(n) % 10)
    ensures var n' := TruncDiv(n, 10);
      && digits == (if n' != 0 then Digits(Abs(n')) else "") + Reversed(text + [Digit(Abs(n) % 10)])
      && (n' != 0 ==> Abs(n') < Abs(n))
  {
    TruncAbs(n);
    ReversedSnoc(text, Digit(Abs(n) % 10));
    var front := if Abs(n) < 10 then "" else Digits(Abs(n) / 10);
    assert front + [Digit(Abs(n) % 10)] + Reversed(text) == front + ([Digit(Abs(n) % 10)] + Reversed(text));
  }

  class FixedBuffer {
    const data: array<char>
    var cur: nat

    ghost predicate Valid()
      reads this
    {
      cur <= data.Length
    }

    ghost function Contents(): string
      requires Valid()
      reads this, data
    {
      data[..cur]
    }

    constructor (size: nat)
      ensures Valid() && fresh(data) && data.Length == size && Contents() == ""
    {
      data := new char[size](_ => '\0');
      cur := 0;
    }

    function Avail(): nat
      requires Valid()
      reads this
    {
      data.Length - cur
    }

    /** Appends only what leaves at least one byte free. */
    method Append(buf: string)
      requires Valid()
      modifies this, data
      ensures Valid()
      ensures Contents() == if old(Avail()) > |buf| then old(Contents()) + buf else old(Contents())
    {
      if Avail() > |buf| {
        var i := 0;
        while i < |buf|
          invariant 0 <= i <= |buf| && cur == old(cur)
          invariant data[..cur] == old(data[..cur])
          invariant data[cur..cur + i] == buf[..i]
        {
          data[cur + i] := buf[i];
          i := i + 1;
        }
        assert data[..cur + |buf|] == data[..cur] + data[cur..cur + |buf|];
        cur := cur + |buf|;
      }
    }

    /** std::reverse on a range of the buffer. */
    method Reverse(lo: nat, hi: nat)
      requires lo <= hi <= data.Length
      modifies data
      ensures data[lo..hi] == Reversed(old(data[lo..hi]))
      ensures data[..lo] == old(data[..lo]) && data[hi..] == old(data[hi..])
    {
      var i, j := lo, hi;
      while i + 1 < j
        invariant lo <= i <= j + 1 <= hi + 1 && i + j == lo + hi && i <= j
        invariant forall k :: lo <= k < i || j <= k < hi ==> data[k] == old(data[..])[lo + hi - 1 - k]
        invariant forall k :: i <= k < j ==> data[k] == old(data[..])[k]
        invariant data[..lo] == old(data[..lo]) && data[hi..] == old(data[hi..])
      {
        j := j - 1;
        data[i], data[j] := data[j], data[i];
        i := i + 1;
      }
      ghost var was := old(data[..]);
      assert was[lo..hi] == old(data[lo..hi]);
      forall k | 0 <= k < hi - lo
        ensures data[lo..hi][k] == Reversed(was[lo..hi])[k]
      {
        assert data[lo + k] == was[hi - 1 - k];
      }
    }

    /** The do-while loop: the digits of any 64-bit value, last one first, behind the contents. */
    method EmitDigits(num: int) returns (c: nat)
      requires Valid() && MIN_INT64 <= num <= MAX_UINT64 && 20 <= Avail()
      modifies data
      ensures cur <= c <= cur + 20 && data[..cur] == old(data[..cur])
      ensures Reversed(data[cur..c]) == Digits(Abs(num))
    {
      DecimalFits(num);
      c := cur;
      var n := num;
      var more := true;
      ghost var text := "";
      ghost var digits := Digits(Abs(num));
      while more
        invariant c == cur + |text| && |text| <= 20 && data[..cur] == old(data[..cur])
        invariant text == data[cur..c]
        invariant digits == (if more then Digits(Abs(n)) else "") + Reversed(text)
        decreases if more then Abs(n) + 1 else 0
      {
        DigitStep(digits, n, text);
        TruncAbs(n);
        var remainder := TruncMod(n, 10);
        data[c] := DIGIT_TABLE[9 + remainder];
        c := c + 1;
        text := text + [Digit(Abs(n) % 10)];
        n := TruncDiv(n, 10);
        more := n != 0;
      }
    }

    /** Appends the decimal text of any 64-bit value, or nothing when less than 48 bytes are free. */
    method FormatInteger(num: int)
      requires Valid() && MIN_INT64 <= num <= MAX_UINT64
      modifies this, data
      ensures Valid()
      ensures Contents() == if old(Avail()) >= MAX_NUMERIC_SIZE then old(Contents()) + Decimal(num) else old(Contents())
    {
      if Avail() < MAX_NUMERIC_SIZE {
        return;
      }
      var start := cur;
      var c := EmitDigits(num);
      if num < 0 {
        ReversedSnoc(data[start..c], '-');
        ghost var text := data[start..c];
        data[c] := '-';
        c := c + 1;
        assert data[start..c] == text + "-";
      }
      assert Reversed(data[start..c]) == Decimal(num);
      Finish(start, c);
    }

    /** The NUL behind the text, the reversal, and the new end of the contents. */
    method Finish(start: nat, c: nat)
      requires start == cur <= c < data.Length
      modifies this, data
      ensures Valid() && Contents() == old(data[..start]) + Reversed(old(data[start..c]))
    {
      data[c] := '\0';
      assert data[start..c] == old(data[start..c]) && data[..start] == old(data[..start]);
      Reverse(start, c);
      cur := c;
      assert data[..c] == data[..start] + data[start..c];
    }
  }
}
