/** Decimal text for integers: Go's `strconv.Itoa` when building argument vectors, and
    `strconv.ParseUint` / `strconv.ParseInt` when reading numbers back out of the tool's text. */
module Numbers {
  import opened Wrappers

  const MaxUint64: nat := 0xFFFF_FFFF_FFFF_FFFF
  const MaxInt64: nat := 0x7FFF_FFFF_FFFF_FFFF

  predicate IsDigit(c: char) {
    '0' <= c <= '9'
  }

  predicate AllDigits(s: string) {
    forall i :: 0 <= i < |s| ==> IsDigit(s[i])
  }

  function DigitValue(c: char): (d: nat)
    requires IsDigit(c)
    ensures d < 10
  {
    c as int - '0' as int
  }

  function DigitChar(d: nat): (c: char)
    requires d < 10
    ensures IsDigit(c) && DigitValue(c) == d
  {
    ('0' as int + d) as char
  }

  /** The decimal value of the digits `s`, read left to right on top of `acc`. */
  function ValueFrom(s: string, acc: nat): nat
    requires AllDigits(s)
  {
    if |s| == 0 then acc else ValueFrom(s[1..], acc * 10 + DigitValue(s[0]))
  }

  /** The decimal value of a digit string. */
  function Value(s: string): nat
    requires AllDigits(s)
  {
    ValueFrom(s, 0)
  }

  /** The decimal digits of `n`, most significant first, with no leading zero. */
  function Digits(n: nat): (r: string)
    ensures |r| > 0 && AllDigits(r)
    ensures |r| > 1 ==> r[0] != '0'
  {
    if n < 10 then [DigitChar(n)] else Digits(n / 10) + [DigitChar(n % 10)]
  }

  /** `strconv.Itoa`: a minus sign for negative numbers, then the digits of the magnitude. */
  function Itoa(i: int): (r: string)
    ensures |r| > 0
    ensures i >= 0 ==> AllDigits(r)
    ensures i < 0 ==> r[0] == '-' && AllDigits(r[1..])
  {
    if i < 0 then "-" + Digits(-i) else Digits(i)
  }

  /** Reads back what `Itoa` writes: an optional minus sign and at least one digit. */
  function Atoi(s: string): Option<int> {
    if |s| > 1 && s[0] == '-' && AllDigits(s[1..]) then
      var magnitude: int := Value(s[1..]);
      Some(-magnitude)
    else if |s| > 0 && AllDigits(s) then Some(Value(s))
    else None
  }

  lemma {:induction false} ValueFromAppend(a: string, b: string, acc: nat)
    requires AllDigits(a) && AllDigits(b)
    ensures AllDigits(a + b)
    ensures ValueFrom(a + b, acc) == ValueFrom(b, ValueFrom(a, acc))
    decreases |a|
  {
    assert AllDigits(a + b) by {
      forall i | 0 <= i < |a + b| ensures IsDigit((a + b)[i]) {
        if i < |a| { assert (a + b)[i] == a[i]; } else { assert (a + b)[i] == b[i - |a|]; }
      }
    }
    if |a| == 0 {
      assert a + b == b;
    } else {
      assert (a + b)[1..] == a[1..] + b;
      ValueFromAppend(a[1..], b, acc * 10 + DigitValue(a[0]));
    }
  }

  lemma {:induction false} ValueFromAtLeast(s: string, acc: nat)
    requires AllDigits(s)
    ensures ValueFrom(s, acc) >= acc
    decreases |s|
  {
    if |s| > 0 {
      ValueFromAtLeast(s[1..], acc * 10 + DigitValue(s[0]));
    }
  }

  /** Reading the digits of `n` gives `n` back. */
  lemma {:induction false} ValueOfDigits(n: nat)
    ensures Value(Digits(n)) == n
  {
    if n < 10 {
      var c := DigitChar(n);
      assert [c][1..] == [];
      assert ValueFrom([c], 0) == ValueFrom([], n);
    } else {
      var c := DigitChar(n % 10);
      ValueOfDigits(n / 10);
      ValueFromAppend(Digits(n / 10), [c], 0);
      assert [c][1..] == [];
      assert ValueFrom([c], n / 10) == ValueFrom([], (n / 10) * 10 + n % 10);
    }
  }

  lemma {:induction false} ValueOfInitAndLast(s: string)
    requires |s| > 0 && AllDigits(s)
    ensures AllDigits(s[..|s| - 1])
    ensures Value(s) == Value(s[..|s| - 1]) * 10 + DigitValue(s[|s| - 1])
  {
    assert s == s[..|s| - 1] + [s[|s| - 1]];
    ValueFromAppend(s[..|s| - 1], [s[|s| - 1]], 0);
  }

  lemma {:induction false} ValuePositive(s: string)
    requires |s| > 0 && AllDigits(s) && s[0] != '0'
    ensures Value(s) > 0
  {
    ValueFromAtLeast(s[1..], DigitValue(s[0]));
  }

  /** Writing the value of a digit string without leading zero gives the string back. */
  lemma {:induction false} DigitsOfValue(s: string)
    requires |s| > 0 && AllDigits(s)
    requires |s| > 1 ==> s[0] != '0'
    ensures Digits(Value(s)) == s
    decreases |s|
  {
    if |s| == 1 {
      assert s[1..] == [];
      assert Value(s) == ValueFrom([], DigitValue(s[0]));
      assert DigitChar(DigitValue(s[0])) == s[0];
    } else {
      var init := s[..|s| - 1];
      ValueOfInitAndLast(s);
      assert init[0] == s[0];
      ValuePositive(init);
      DigitsOfValue(init);
      var n := Value(s);
      assert n / 10 == Value(init) && n % 10 == DigitValue(s[|s| - 1]);
      assert DigitChar(DigitValue(s[|s| - 1])) == s[|s| - 1];
      assert s == init + [s[|s| - 1]];
    }
  }

  /** `Atoi` inverts `Itoa` on every integer. */
  lemma {:induction false} AtoiOfItoa(i: int)
    ensures Atoi(Itoa(i)) == Some(i)
  {
    if i < 0 {
      var s := Itoa(i);
      assert s[1..] == Digits(-i);
      ValueOfDigits(-i);
    } else {
      ValueOfDigits(i);
    }
  }

  /** The outcome of `strconv.ParseUint`: a value, or one of its two error kinds. */
  datatype UintParse = Parsed(n: nat) | SyntaxError | RangeError {

    /** The number `strconv.ParseUint` returns beside its error: 0 on a syntax
        error, the largest 64-bit value on a range error. */
    function Returned(): nat {
      match this
      case Parsed(n) => n
      case SyntaxError => 0
      case RangeError => MaxUint64
    }
  }

  /** The digit loop of `strconv.ParseUint` in base 10: a non-digit is a syntax error,
      a value past 64 bits a range error, whichever comes first from the left. */
  function ParseDigitsFrom(s: string, acc: nat): (r: UintParse)
    requires acc <= MaxUint64
    ensures r.Parsed? ==> AllDigits(s) && r.n == ValueFrom(s, acc) && r.n <= MaxUint64
    ensures r.RangeError? ==> exists k :: 0 < k <= |s| && AllDigits(s[..k]) && ValueFrom(s[..k], acc) > MaxUint64
    decreases |s|
  {
    if |s| == 0 then Parsed(acc)
    else if !IsDigit(s[0]) then SyntaxError
    else
      var next := acc * 10 + DigitValue(s[0]);
      if next > MaxUint64 then
        assert ValueFrom(s[..1], acc) == next;
        RangeError
      else
        var r := ParseDigitsFrom(s[1..], next);
        if r.RangeError? then
          var k :| 0 < k <= |s[1..]| && AllDigits(s[1..][..k]) && ValueFrom(s[1..][..k], next) > MaxUint64;
          assert s[..k + 1][1..] == s[1..][..k];
          r
        else r
  }

  /** `strconv.ParseUint(s, 10, 64)`. */
  function ParseUint(s: string): (r: UintParse)
    ensures r.Parsed? ==> |s| > 0 && AllDigits(s) && r.n == Value(s) && r.n <= MaxUint64
    ensures r.RangeError? ==> exists k :: 0 < k <= |s| && AllDigits(s[..k]) && Value(s[..k]) > MaxUint64
    ensures |s| == 0 ==> r == SyntaxError
  {
    if |s| == 0 then SyntaxError else ParseDigitsFrom(s, 0)
  }

  lemma {:induction false} ParseDigitsFromOfDigits(s: string, acc: nat)
    requires acc <= MaxUint64 && AllDigits(s)
    ensures ParseDigitsFrom(s, acc) == if ValueFrom(s, acc) <= MaxUint64 then Parsed(ValueFrom(s, acc)) else RangeError
    decreases |s|
  {
    if |s| > 0 {
      var next := acc * 10 + DigitValue(s[0]);
      ValueFromAtLeast(s[1..], next);
      if next <= MaxUint64 {
        ParseDigitsFromOfDigits(s[1..], next);
      }
    }
  }

  /** On a non-empty digit string, ParseUint fails exactly when the value does not fit 64 bits. */
  lemma {:induction false} ParseUintOfDigits(s: string)
    requires |s| > 0 && AllDigits(s)
    ensures ParseUint(s) == if Value(s) <= MaxUint64 then Parsed(Value(s)) else RangeError
  {
    ParseDigitsFromOfDigits(s, 0);
  }

  /** Every unsigned 64-bit number survives `Itoa` followed by `ParseUint`. */
  lemma {:induction false} ParseUintOfItoa(n: nat)
    requires n <= MaxUint64
    ensures ParseUint(Itoa(n)) == Parsed(n)
  {
    ValueOfDigits(n);
    ParseUintOfDigits(Digits(n));
  }
}
