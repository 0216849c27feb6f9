/** Option values and the few facts about characters, decimal numerals and
    code-point order that the other modules share. */
module Wrappers {
  datatype Option<+T> = None | Some(value: T) {
    predicate IsFailure() {
      None?
    }

    function PropagateFailure<U>(): Option<U>
      requires None?
    {
      None
    }

    function Extract(): T
      requires Some?
    {
      value
    }
  }
}

module Text {
  datatype Ordering = Less | Equal | Greater

  function Flip(o: Ordering): Ordering {
    match o
    case Less => Greater
    case Equal => Equal
    case Greater => Less
  }

  function CompareInt(a: int, b: int): Ordering {
    if a < b then Less else if a == b then Equal else Greater
  }

  function Min(a: int, b: int): int {
    if a <= b then a else b
  }

  lemma ConcatAssoc<T>(a: seq<T>, b: seq<T>, c: seq<T>)
    ensures (a + b) + c == a + (b + c)
  {
  }

  lemma NotInConcat<T>(x: T, a: seq<T>, b: seq<T>)
    requires x !in a && x !in b
    ensures x !in a + b
  {
  }

  predicate IsDigit(c: char) {
    '0' <= c <= '9'
  }

  predicate AllDigits(s: string) {
    forall i :: 0 <= i < |s| ==> IsDigit(s[i])
  }

  /** ASCII lower-casing: everything outside `A`..`Z` is left alone. */
  function Lower(c: char): char {
    if 'A' <= c <= 'Z' then (c as int + 32) as char else c
  }

  /** Equality of ASCII letters up to case, and of everything else as it is. */
  predicate SameLetter(c: char, d: char) {
    c == d || ('A' <= c <= 'Z' && d as int == c as int + 32) || ('A' <= d <= 'Z' && c as int == d as int + 32)
  }

  /** The number a run of decimal digits denotes, of any length. */
  function DecValue(s: string): nat
    requires AllDigits(s)
  {
    if s == [] then 0
    else 10 * DecValue(s[..|s| - 1]) + (s[|s| - 1] as int - '0' as int)
  }

  lemma DigitSnoc(s: string, i: nat, j: nat)
    requires i <= j < |s| && AllDigits(s[i..j]) && IsDigit(s[j])
    ensures AllDigits(s[i..j + 1])
    ensures DecValue(s[i..j + 1]) == 10 * DecValue(s[i..j]) + (s[j] as int - '0' as int)
  {
    var t := s[i..j + 1];
    assert t[..|t| - 1] == s[i..j] && t[|t| - 1] == s[j];
    assert forall k :: 0 <= k < |t| - 1 ==> t[k] == s[i..j][k];
  }

  /** The shortest decimal numeral of a number. */
  function Decimal(n: nat): string {
    if n < 10 then [('0' as int + n) as char]
    else Decimal(n / 10) + [('0' as int + n % 10) as char]
  }

  lemma {:induction false} DecimalReadsBack(n: nat)
    ensures |Decimal(n)| > 0 && AllDigits(Decimal(n)) && DecValue(Decimal(n)) == n
  {
    if n >= 10 {
      DecimalReadsBack(n / 10);
      var s := Decimal(n);
      assert s[..|s| - 1] == Decimal(n / 10);
    } else {
      assert Decimal(n)[..0] == [];
    }
  }

  lemma DecimalInjective(m: nat, n: nat)
    requires Decimal(m) == Decimal(n)
    ensures m == n
  {
    DecimalReadsBack(m);
    DecimalReadsBack(n);
  }

  /** Code-point lexicographic order, which is also byte order on UTF-8. */
  function Lex(a: string, b: string): Ordering {
    if a == [] then (if b == [] then Equal else Less)
    else if b == [] then Greater
    else if a[0] != b[0] then CompareInt(a[0] as int, b[0] as int)
    else Lex(a[1..], b[1..])
  }

  lemma {:induction false} LexEqualIsIdentity(a: string, b: string)
    ensures Lex(a, b) == Equal <==> a == b
  {
    if a != [] && b != [] {
      if a[0] == b[0] {
        LexEqualIsIdentity(a[1..], b[1..]);
        assert a == [a[0]] + a[1..] && b == [b[0]] + b[1..];
      }
    }
  }

  lemma {:induction false} LexFlips(a: string, b: string)
    ensures Lex(b, a) == Flip(Lex(a, b))
  {
    if a != [] && b != [] {
      LexFlips(a[1..], b[1..]);
    }
  }

  lemma {:induction false} LexTransitive(a: string, b: string, c: string)
    requires Lex(a, b) != Greater && Lex(b, c) != Greater
    ensures Lex(a, c) != Greater
    ensures Lex(a, b) == Less || Lex(b, c) == Less ==> Lex(a, c) == Less
  {
    if a != [] && b != [] && c != [] {
      if a[0] == b[0] && b[0] == c[0] {
        LexTransitive(a[1..], b[1..], c[1..]);
      }
    }
  }

  /** Equal-length heads decide unless they are identical. */
  lemma {:induction false} LexOfConcat(x: string, y: string, u: string, v: string)
    requires |x| == |y|
    ensures Lex(x + u, y + v) == if x == y then Lex(u, v) else Lex(x, y)
  {
    if x == [] {
      assert x + u == u && y + v == v;
    } else {
      LexOfConcat(x[1..], y[1..], u, v);
      assert (x + u)[1..] == x[1..] + u && (y + v)[1..] == y[1..] + v;
      assert x == [x[0]] + x[1..] && y == [y[0]] + y[1..];
    }
  }

  /** Digit runs of one length are ordered as the numbers they denote. */
  lemma {:induction false} LexOfNumerals(x: string, y: string)
    requires AllDigits(x) && AllDigits(y) && |x| == |y|
    ensures Lex(x, y) == CompareInt(DecValue(x), DecValue(y))
  {
    if x != [] {
      var n := |x| - 1;
      LexOfNumerals(x[..n], y[..n]);
      LexOfConcat(x[..n], y[..n], x[n..], y[n..]);
      assert x == x[..n] + x[n..] && y == y[..n] + y[n..];
      assert x[n..] == [x[n]] && y[n..] == [y[n]];
      LexEqualIsIdentity(x[..n], y[..n]);
    }
  }

  /** Leading zeros leave the value of a numeral alone. */
  lemma {:induction false} LeadingZeros(z: string, s: string)
    requires AllDigits(s) && forall i :: 0 <= i < |z| ==> z[i] == '0'
    ensures AllDigits(z + s) && DecValue(z + s) == DecValue(s)
  {
    if s == [] {
      if z != [] {
        LeadingZeros(z[..|z| - 1], []);
        assert z[..|z| - 1] + [] == (z + [])[..|z + []| - 1];
      } else {
        assert z + s == [];
      }
    } else {
      LeadingZeros(z, s[..|s| - 1]);
      assert (z + s)[..|z + s| - 1] == z + s[..|s| - 1];
    }
  }

  /** A run of `n` digits denotes a number below 10 to the `n`. */
  function Pow10(n: nat): nat {
    if n == 0 then 1 else 10 * Pow10(n - 1)
  }

  lemma {:induction false} NumeralBound(s: string)
    requires AllDigits(s)
    ensures DecValue(s) < Pow10(|s|)
  {
    if s != [] {
      NumeralBound(s[..|s| - 1]);
    }
  }
}
