/**
 * String helpers the script relies on through Python built-ins:
 * `str.join`, the decimal rendering of an integer in an f-string, and the
 * code-point ordering used by `sorted` on strings.
 */
module Text {
  import opened Wrappers

  /** `sep.join(parts)`: the parts in order, with `sep` between neighbours. */
  function Join(sep: string, parts: seq<string>): string
  {
    if |parts| == 0 then ""
    else if |parts| == 1 then parts[0]
    else parts[0] + sep + Join(sep, parts[1..])
  }

  // ---------------------------------------------------------------------
  // Decimal rendering of integers (`f"{n}"` on a Python int) and its inverse

  function DigitChar(d: nat): char
    requires d < 10
  {
    "0123456789"[d]
  }

  predicate IsDigit(c: char)
  {
    '0' <= c <= '9'
  }

  function DigitValue(c: char): nat
    requires IsDigit(c)
  {
    (c as int - '0' as int) as nat
  }

  /** The decimal digits of `n`, most significant first, without leading zeros. */
  function Digits(n: nat): (s: string)
    ensures |s| > 0
    ensures forall i :: 0 <= i < |s| ==> IsDigit(s[i])
  {
    if n < 10 then [DigitChar(n)] else Digits(n / 10) + [DigitChar(n % 10)]
  }

  /** `str(n)`: a leading '-' for negative numbers, then the digits. */
  function Decimal(n: int): string
  {
    if n < 0 then "-" + Digits(-n) else Digits(n)
  }

  function DigitsValue(s: string): nat
    requires forall i :: 0 <= i < |s| ==> IsDigit(s[i])
  {
    if |s| == 0 then 0 else DigitsValue(s[..|s| - 1]) * 10 + DigitValue(s[|s| - 1])
  }

  predicate AllDigits(s: string)
  {
    |s| > 0 && forall i :: 0 <= i < |s| ==> IsDigit(s[i])
  }

  /** Reads back an optionally signed decimal integer. */
  function ParseInt(s: string): Option<int>
  {
    if |s| > 0 && s[0] == '-' then
      if AllDigits(s[1..]) then Some(-(DigitsValue(s[1..]) as int)) else None
    else if AllDigits(s) then Some(DigitsValue(s))
    else None
  }

  lemma {:induction false} DigitsRoundTrip(n: nat)
    ensures DigitsValue(Digits(n)) == n
  {
    if n >= 10 {
      DigitsRoundTrip(n / 10);
      var s := Digits(n);
      assert s[..|s| - 1] == Digits(n / 10);
    }
  }

  /** The rendering of an account id can be read back: it loses nothing. */
  lemma DecimalRoundTrip(n: int)
    ensures ParseInt(Decimal(n)) == Some(n)
  {
    var s := Decimal(n);
    if n < 0 {
      var d := Digits(-n);
      DigitsRoundTrip(-n);
      assert s == "-" + d;
      assert s[0] == '-' && s[1..] == d;
      assert AllDigits(d);
    } else {
      DigitsRoundTrip(n);
      assert s == Digits(n);
      assert IsDigit(s[0]);
      assert AllDigits(s);
    }
  }

  // ---------------------------------------------------------------------
  // Python's ordering on strings: lexicographic by code point, a proper
  // prefix sorting first

  predicate LexLess(a: string, b: string)
  {
    if |a| == 0 then |b| > 0
    else if |b| == 0 then false
    else a[0] < b[0] || (a[0] == b[0] && LexLess(a[1..], b[1..]))
  }

  lemma LexLessIrreflexive(a: string)
    ensures !LexLess(a, a)
  {
  }

  lemma LexLessTransitive(a: string, b: string, c: string)
    requires LexLess(a, b) && LexLess(b, c)
    ensures LexLess(a, c)
  {
    if |a| > 0 && |b| > 0 && |c| > 0 && a[0] == b[0] == c[0] {
      LexLessTransitive(a[1..], b[1..], c[1..]);
    }
  }

  lemma LexLessTotal(a: string, b: string)
    requires a != b
    ensures LexLess(a, b) || LexLess(b, a)
  {
    if |a| > 0 && |b| > 0 && a[0] == b[0] {
      assert a == [a[0]] + a[1..] && b == [b[0]] + b[1..];
      LexLessTotal(a[1..], b[1..]);
    }
  }

  lemma LexLessAsymmetric(a: string, b: string)
    requires LexLess(a, b)
    ensures !LexLess(b, a)
  {
    if LexLess(b, a) {
      LexLessTransitive(a, b, a);
      LexLessIrreflexive(a);
    }
  }

  predicate IsLeast(m: string, keys: set<string>)
  {
    m in keys && forall k :: k in keys && k != m ==> LexLess(m, k)
  }

  lemma {:induction false} LeastExists(keys: set<string>)
    requires keys != {}
    ensures exists m :: IsLeast(m, keys)
    decreases |keys|
  {
    var x :| x in keys;
    if keys == {x} {
      assert IsLeast(x, keys);
    } else {
      LeastExists(keys - {x});
      var m :| IsLeast(m, keys - {x});
      if LexLess(m, x) {
        forall k | k in keys && k != m
          ensures LexLess(m, k)
        {
        }
        assert IsLeast(m, keys);
      } else {
        LexLessTotal(m, x);
        forall k | k in keys && k != x
          ensures LexLess(x, k)
        {
          if k != m {
            LexLessTransitive(x, m, k);
          }
        }
        assert IsLeast(x, keys);
      }
    }
  }

  lemma LeastUnique(m: string, m': string, keys: set<string>)
    requires IsLeast(m, keys) && IsLeast(m', keys)
    ensures m == m'
  {
    if m != m' {
      LexLessAsymmetric(m, m');
    }
  }

  predicate StrictlySorted(s: seq<string>)
  {
    forall i, j :: 0 <= i < j < |s| ==> LexLess(s[i], s[j])
  }

  /** `sorted(keys)`: the elements of the set in ascending order, each once. */
  function SortedKeys(keys: set<string>): (r: seq<string>)
    ensures StrictlySorted(r)
    ensures forall k :: k in r <==> k in keys
    ensures |r| == |keys|
    decreases |keys|
  {
    if keys == {} then []
    else
      LeastExists(keys);
      forall m, m' | IsLeast(m, keys) && IsLeast(m', keys)
        ensures m == m'
      {
        LeastUnique(m, m', keys);
      }
      var m :| IsLeast(m, keys);
      var rest := SortedKeys(keys - {m});
      assert forall k :: k in rest ==> k in keys && k != m;
      [m] + rest
  }

  /** Two keys in order are sorted as themselves. */
  lemma SortedPair(a: string, b: string)
    requires LexLess(a, b)
    ensures SortedKeys({a, b}) == [a, b]
  {
    var r := SortedKeys({a, b});
    LexLessIrreflexive(a);
    assert |{a, b}| == 2;
    assert r[0] in {a, b} && r[1] in {a, b};
    LexLessIrreflexive(r[0]);
    if r[0] == b {
      LexLessAsymmetric(a, b);
    }
  }
}
