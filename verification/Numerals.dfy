/**
 Decimal numerals as Go's strconv reads and writes them: an optional sign, digits with any
 number of leading zeros, and a 64-bit range.
 */
module Numerals {
  const MIN64 := -0x8000_0000_0000_0000
  const MAX64 := 0x7FFF_FFFF_FFFF_FFFF

  type Int64 = n: int | MIN64 <= n <= MAX64

  /** Two's-complement wrap-around of a machine integer. */
  function Wrap64(n: int): Int64 {
    (n - MIN64) % 0x1_0000_0000_0000_0000 + MIN64
  }

  datatype Parsed = Ok(n: Int64) | BadSyntax | OutOfRange(clamped: Int64) {
    /** The value strconv.Atoi returns next to its error. */
    function Value(): Int64 {
      match this
      case Ok(n) => n
      case BadSyntax => 0
      case OutOfRange(clamped) => clamped
    }
  }

  predicate IsDigit(c: char) {
    '0' <= c <= '9'
  }

  predicate AllDigits(s: string) {
    forall i :: 0 <= i < |s| ==> IsDigit(s[i])
  }

  function Decimal(s: string): nat
    requires AllDigits(s)
  {
    if s == [] then 0 else 10 * Decimal(s[..|s| - 1]) + (s[|s| - 1] as int - '0' as int)
  }

  function Atoi(s: string): Parsed {
    var signed := s != [] && (s[0] == '+' || s[0] == '-');
    var body := if signed then s[1..] else s;
    if body == [] || !AllDigits(body) then BadSyntax
    else
      var n: int := if signed && s[0] == '-' then 0 - Decimal(body) else Decimal(body);
      if n < MIN64 then OutOfRange(MIN64) else if n > MAX64 then OutOfRange(MAX64) else Ok(n)
  }

  function Digits(n: nat): string {
    if n < 10 then [(n + '0' as int) as char] else Digits(n / 10) + [(n % 10 + '0' as int) as char]
  }

  function Zeros(k: nat): string {
    seq(k, _ => '0')
  }

  /** The number with `k` superfluous leading zeros; with none it is what strconv.FormatInt prints. */
  function Numeral(n: int, k: nat): string {
    if n < 0 then "-" + Zeros(k) + Digits(-n) else Zeros(k) + Digits(n)
  }

  function Itoa(n: Int64): string {
    Numeral(n, 0)
  }

  lemma {:induction false} DecimalOfDigits(n: nat)
    ensures Digits(n) != [] && AllDigits(Digits(n)) && Decimal(Digits(n)) == n
  {
    var last := [(n % 10 + '0' as int) as char];
    if n < 10 {
      assert Digits(n)[..0] == [];
    } else {
      DecimalOfDigits(n / 10);
      assert Digits(n)[..|Digits(n)| - 1] == Digits(n / 10);
    }
  }

  lemma {:induction false} LeadingZeros(k: nat, s: string)
    requires AllDigits(s)
    ensures AllDigits(Zeros(k) + s) && Decimal(Zeros(k) + s) == Decimal(s)
    decreases k + |s|
  {
    var t := Zeros(k) + s;
    if s != [] {
      assert t[..|t| - 1] == Zeros(k) + s[..|s| - 1];
      LeadingZeros(k, s[..|s| - 1]);
    } else if k > 0 {
      assert t[..|t| - 1] == Zeros(k - 1) + s;
      LeadingZeros(k - 1, s);
    }
  }

  lemma UnsignedReads(body: string)
    requires body != [] && AllDigits(body) && Decimal(body) <= MAX64
    ensures Atoi(body) == Ok(Decimal(body))
  {
    assert IsDigit(body[0]);
  }

  lemma NegativeReads(body: string)
    requires body != [] && AllDigits(body) && 0 - Decimal(body) as int >= MIN64
    ensures Atoi("-" + body) == Ok(0 - Decimal(body) as int)
  {
    assert ("-" + body)[1..] == body;
  }

  /** Every spelling of a number reads back as that number. */
  lemma NumeralReads(n: Int64, k: nat)
    ensures Atoi(Numeral(n, k)) == Ok(n)
    ensures |Numeral(n, k)| > k
  {
    var m: nat := if n < 0 then -(n as int) else n;
    DecimalOfDigits(m);
    LeadingZeros(k, Digits(m));
    if n < 0 {
      NegativeReads(Zeros(k) + Digits(m));
      assert "-" + Zeros(k) + Digits(m) == "-" + (Zeros(k) + Digits(m));
    } else {
      UnsignedReads(Zeros(k) + Digits(m));
    }
  }

  /** Any digits are some leading zeros and the digits of their value. */
  lemma {:induction false} DigitsAreNumeral(s: string) returns (k: nat)
    requires s != [] && AllDigits(s)
    ensures s == Zeros(k) + Digits(Decimal(s))
  {
    var init, d := s[..|s| - 1], s[|s| - 1] as int - '0' as int;
    assert IsDigit(s[|s| - 1]);
    var last := [(d + '0' as int) as char];
    assert s == init + last;
    if init == [] {
      assert Decimal(init) == 0;
      k := 0;
    } else {
      var j := DigitsAreNumeral(init);
      var n := Decimal(init);
      assert Decimal(s) == 10 * n + d;
      if n == 0 {
        k := j + 1;
        assert Zeros(j) + "0" == Zeros(k);
      } else {
        k := j;
        assert (10 * n + d) / 10 == n && (10 * n + d) % 10 == d;
        assert Digits(10 * n + d) == Digits(n) + last;
      }
    }
  }

  /** The number spelled with any number of leading zeros, and with any sign that fits. */
  ghost predicate Spells(s: string, n: int) {
    exists k: nat :: s == Numeral(n, k) || (n >= 0 && s == "+" + Numeral(n, k)) || (n == 0 && s == "-" + Numeral(n, k))
  }

  lemma SignedReads(n: Int64, k: nat)
    requires n >= 0
    ensures Atoi("+" + Numeral(n, k)) == Ok(n)
    ensures n == 0 ==> Atoi("-" + Numeral(n, k)) == Ok(n)
  {
    DecimalOfDigits(n);
    LeadingZeros(k, Digits(n));
    assert ("+" + Numeral(n, k))[1..] == Numeral(n, k) == ("-" + Numeral(n, k))[1..];
  }

  /** A string reads as a number if and only if it spells it. */
  lemma ReadsIff(s: string, n: Int64)
    ensures Atoi(s) == Ok(n) <==> Spells(s, n)
  {
    if Atoi(s) == Ok(n) {
      ReadIsSpelled(s, n);
    }
    if k: nat :| s == Numeral(n, k) || (n >= 0 && s == "+" + Numeral(n, k)) || (n == 0 && s == "-" + Numeral(n, k)) {
      NumeralReads(n, k);
      if n >= 0 {
        SignedReads(n, k);
      }
    }
  }

  lemma ReadIsSpelled(s: string, n: Int64)
    requires Atoi(s) == Ok(n)
    ensures Spells(s, n)
  {
    if s[0] == '+' || s[0] == '-' {
      SignedIsSpelled(s[0], s[1..], n);
      assert s == [s[0]] + s[1..];
    } else {
      var k := DigitsAreNumeral(s);
      assert s == Numeral(n, k);
    }
  }

  lemma SignedIsSpelled(sign: char, body: string, n: Int64)
    requires (sign == '+' || sign == '-') && body != [] && AllDigits(body)
    requires n == if sign == '-' then 0 - Decimal(body) as int else Decimal(body)
    ensures Spells([sign] + body, n)
  {
    var k := DigitsAreNumeral(body);
    if sign == '+' {
      assert [sign] + body == "+" + Numeral(n, k);
    } else if n == 0 {
      assert [sign] + body == "-" + Numeral(n, k);
    } else {
      assert "-" + Zeros(k) + Digits(-(n as int)) == "-" + (Zeros(k) + Digits(-(n as int)));
      assert [sign] + body == Numeral(n, k);
    }
  }

  lemma {:induction false} LengthBound(s: set<string>) returns (bound: nat)
    ensures forall x :: x in s ==> |x| <= bound
    decreases |s|
  {
    bound := 0;
    if s != {} {
      var x :| x in s;
      var rest := LengthBound(s - {x});
      bound := if |x| > rest then |x| else rest;
      forall y | y in s
        ensures |y| <= bound
      {
        assert y == x || y in s - {x};
      }
    }
  }

  /** No finite set of strings holds every spelling of a number. */
  lemma FreshNumeral(s: set<string>, n: Int64) returns (v: string)
    ensures v !in s && Atoi(v) == Ok(n)
  {
    var bound := LengthBound(s);
    v := Numeral(n, bound);
    NumeralReads(n, bound);
  }
}
