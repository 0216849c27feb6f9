/** Natural ordering of names (src/natsort.rs): a two-cursor comparator and an
    independently computed padded sort key. */
module NatSort {
  import opened Text

  const U128_MAX: nat := 0xFFFF_FFFF_FFFF_FFFF_FFFF_FFFF_FFFF_FFFF
  const PAD_WIDTH: nat := 20

  /** Length of the longest prefix made of ASCII digits. */
  function RunLength(s: string): (n: nat)
    ensures n <= |s| && AllDigits(s[..n]) && (n < |s| ==> !IsDigit(s[n]))
  {
    if s == [] || !IsDigit(s[0]) then 0
    else
      var n := RunLength(s[1..]);
      assert s[1..][..n] == s[1..n + 1];
      assert forall i :: 1 <= i < n + 1 ==> s[i] == s[1..][i - 1];
      assert n + 1 < |s| ==> s[n + 1] == s[1..][n];
      n + 1
  }

  lemma RunLengthIs(s: string, n: nat)
    requires n <= |s| && AllDigits(s[..n]) && (n < |s| ==> !IsDigit(s[n]))
    ensures RunLength(s) == n
  {
    var m := RunLength(s);
    if m < n {
      DigitAt(s, n, m);
    } else if n < m {
      DigitAt(s, m, n);
    }
  }

  lemma DigitAt(s: string, n: nat, k: nat)
    requires k < n <= |s| && AllDigits(s[..n])
    ensures IsDigit(s[k])
  {
    assert s[..n][k] == s[k];
  }

  /** What the comparator sees of a name: maximal digit runs and single characters. */
  datatype Token = Num(digits: string) | Ch(c: char)

  function Tokens(s: string): seq<Token>
    decreases |s|
  {
    if s == [] then []
    else if IsDigit(s[0]) then
      assert RunLength(s) > 0;
      [Num(s[..RunLength(s)])] + Tokens(s[RunLength(s)..])
    else [Ch(s[0])] + Tokens(s[1..])
  }

  predicate ValidToken(t: Token) {
    match t
    case Num(d) => d != [] && AllDigits(d)
    case Ch(c) => !IsDigit(c)
  }

  /** The value a digit run contributes: exact up to 2^128 - 1, then saturated. */
  function Saturated(digits: string): nat
    requires AllDigits(digits)
  {
    Min(DecValue(digits), U128_MAX)
  }

  function CompareToken(x: Token, y: Token): Ordering
    requires ValidToken(x) && ValidToken(y)
  {
    match (x, y)
    case (Num(d), Num(e)) => CompareInt(Saturated(d), Saturated(e))
    case (Num(_), Ch(c)) => CompareInt('0' as int, Lower(c) as int)
    case (Ch(c), Num(_)) => CompareInt(Lower(c) as int, '0' as int)
    case (Ch(c), Ch(e)) => CompareInt(Lower(c) as int, Lower(e) as int)
  }

  predicate ValidTokens(ts: seq<Token>) {
    forall i :: 0 <= i < |ts| ==> ValidToken(ts[i])
  }

  lemma {:induction false} TokensAreValid(s: string)
    ensures ValidTokens(Tokens(s))
    decreases |s|
  {
    if s != [] {
      if IsDigit(s[0]) {
        TokensAreValid(s[RunLength(s)..]);
      } else {
        TokensAreValid(s[1..]);
      }
    }
  }

  /** Lexicographic order on token lists; a proper prefix comes first. */
  function CompareTokens(xs: seq<Token>, ys: seq<Token>): Ordering
    requires ValidTokens(xs) && ValidTokens(ys)
  {
    if xs == [] then (if ys == [] then Equal else Less)
    else if ys == [] then Greater
    else
      var o := CompareToken(xs[0], ys[0]);
      if o != Equal then o else CompareTokens(xs[1..], ys[1..])
  }

  /** The order the comparator is meant to compute. */
  function Compare(a: string, b: string): Ordering {
    TokensAreValid(a);
    TokensAreValid(b);
    CompareTokens(Tokens(a), Tokens(b))
  }

  // ---------------------------------------------------------------------
  // The comparator
  // ---------------------------------------------------------------------

  /** The saturating loop: from any digit run, of any length, it reads the
      saturated value and stops at the first character after the run. */
  method TakeNumber(s: string, start: nat) returns (n: nat, end: nat)
    requires start <= |s|
    ensures end == start + RunLength(s[start..]) && end <= |s|
    ensures AllDigits(s[start..end]) && n == Saturated(s[start..end])
  {
    n, end := 0, start;
    assert s[start..end] == [];
    while end < |s| && IsDigit(s[end])
      invariant start <= end <= |s|
      invariant AllDigits(s[start..end]) && n == Saturated(s[start..end])
    {
      var d := s[end] as int - '0' as int;
      DigitSnoc(s, start, end);
      n := Min(Min(n * 10, U128_MAX) + d, U128_MAX);
      end := end + 1;
    }
    assert s[start..][..end - start] == s[start..end];
    RunLengthIs(s[start..], end - start);
  }

  lemma TokensStep(s: string, i: nat)
    requires i < |s|
    ensures IsDigit(s[i]) ==>
              var n := RunLength(s[i..]);
              0 < n && i + n <= |s| && Tokens(s[i..]) == [Num(s[i..i + n])] + Tokens(s[i + n..])
    ensures !IsDigit(s[i]) ==> Tokens(s[i..]) == [Ch(s[i])] + Tokens(s[i + 1..])
  {
    var t := s[i..];
    if IsDigit(s[i]) {
      var n := RunLength(t);
      assert t[..n] == s[i..i + n] && t[n..] == s[i + n..];
    } else {
      assert t[1..] == s[i + 1..];
    }
  }

  lemma CompareHeads(s: string, t: string, x: Token, y: Token, s': string, t': string)
    requires Tokens(s) == [x] + Tokens(s') && Tokens(t) == [y] + Tokens(t') && ValidToken(x) && ValidToken(y)
    ensures Compare(s, t) == if CompareToken(x, y) != Equal then CompareToken(x, y) else Compare(s', t')
  {
    TokensAreValid(s);
    TokensAreValid(t);
    assert Tokens(s)[1..] == Tokens(s') && Tokens(t)[1..] == Tokens(t');
  }

  /** The first token of a suffix, and where it ends. */
  function TokenAt(s: string, i: nat): (r: (Token, nat))
    requires i < |s|
    ensures ValidToken(r.0) && i < r.1 <= |s| && Tokens(s[i..]) == [r.0] + Tokens(s[r.1..])
  {
    TokensStep(s, i);
    if IsDigit(s[i]) then
      var k := i + RunLength(s[i..]);
      assert s[i..k] == s[i..][..k - i];
      (Num(s[i..k]), k)
    else (Ch(s[i]), i + 1)
  }

  /** One turn of the comparator's loop at two digit runs, both cursors at token boundaries. */
  lemma CompareRuns(a: string, i: nat, i': nat, b: string, j: nat, j': nat)
    requires i < |a| && j < |b| && IsDigit(a[i]) && IsDigit(b[j])
    requires i' == i + RunLength(a[i..]) <= |a| && AllDigits(a[i..i'])
    requires j' == j + RunLength(b[j..]) <= |b| && AllDigits(b[j..j'])
    ensures i < i' && j < j'
    ensures var c := CompareInt(Saturated(a[i..i']), Saturated(b[j..j']));
            Compare(a[i..], b[j..]) == if c != Equal then c else Compare(a[i'..], b[j'..])
  {
    var (x, k) := TokenAt(a, i);
    var (y, l) := TokenAt(b, j);
    CompareHeads(a[i..], b[j..], x, y, a[k..], b[l..]);
  }

  /** One turn at two characters that are not both digits. */
  lemma CompareChars(a: string, i: nat, b: string, j: nat)
    requires i < |a| && j < |b| && !(IsDigit(a[i]) && IsDigit(b[j]))
    ensures var c := CompareInt(Lower(a[i]) as int, Lower(b[j]) as int);
            Compare(a[i..], b[j..]) == if c != Equal then c else Compare(a[i + 1..], b[j + 1..])
  {
    var (x, i') := TokenAt(a, i);
    var (y, j') := TokenAt(b, j);
    CompareHeads(a[i..], b[j..], x, y, a[i'..], b[j'..]);
  }

  lemma CompareAtEnd(a: string, b: string)
    requires a == [] || b == []
    ensures Compare(a, b) == if a != [] then Greater else if b != [] then Less else Equal
  {
  }

  /** Both cursors stay at token boundaries, so the loop decides the token order. */
  method Cmp(a: string, b: string) returns (o: Ordering)
    ensures o == Compare(a, b)
  {
    var i, j := 0, 0;
    ghost var whole := Compare(a, b);
    assert a[0..] == a && b[0..] == b;
    while i < |a| && j < |b|
      invariant 0 <= i <= |a| && 0 <= j <= |b|
      invariant whole == Compare(a[i..], b[j..])
      decreases |a| - i
    {
      if IsDigit(a[i]) && IsDigit(b[j]) {
        var na, i' := TakeNumber(a, i);
        var nb, j' := TakeNumber(b, j);
        CompareRuns(a, i, i', b, j, j');
        o := CompareInt(na, nb);
        if o != Equal { return; }
        i, j := i', j';
      } else {
        CompareChars(a, i, b, j);
        o := CompareInt(Lower(a[i]) as int, Lower(b[j]) as int);
        if o != Equal { return; }
        i, j := i + 1, j + 1;
      }
    }
    CompareAtEnd(a[i..], b[j..]);
    return if i < |a| then Greater else if j < |b| then Less else Equal;
  }

  /** Numerals are ordered by value, leading zeros or not, as far as 128 bits can tell. */
  lemma NumeralsByValue(d: string, e: string)
    requires d != [] && AllDigits(d) && e != [] && AllDigits(e)
    ensures Compare(d, e) ==
            CompareInt(Min(DecValue(d), 0xFFFF_FFFF_FFFF_FFFF_FFFF_FFFF_FFFF_FFFF),
                       Min(DecValue(e), 0xFFFF_FFFF_FFFF_FFFF_FFFF_FFFF_FFFF_FFFF))
  {
    RunLengthIs(d, |d|);
    RunLengthIs(e, |e|);
    assert d[0..] == d && e[0..] == e && d[0..|d|] == d && e[0..|e|] == e;
    CompareRuns(d, 0, |d|, e, 0, |e|);
    CompareAtEnd(d[|d|..], e[|e|..]);
  }

  // ---------------------------------------------------------------------
  // The comparator is a total preorder
  // ---------------------------------------------------------------------

  lemma {:induction false} TokenListsReflexive(xs: seq<Token>)
    requires ValidTokens(xs)
    ensures CompareTokens(xs, xs) == Equal
  {
    if xs != [] {
      TokenListsReflexive(xs[1..]);
    }
  }

  lemma {:induction false} TokenListsFlip(xs: seq<Token>, ys: seq<Token>)
    requires ValidTokens(xs) && ValidTokens(ys)
    ensures CompareTokens(ys, xs) == Flip(CompareTokens(xs, ys))
  {
    if xs != [] && ys != [] {
      TokenListsFlip(xs[1..], ys[1..]);
    }
  }

  lemma {:induction false} TokenListsTransitive(xs: seq<Token>, ys: seq<Token>, zs: seq<Token>)
    requires ValidTokens(xs) && ValidTokens(ys) && ValidTokens(zs)
    requires CompareTokens(xs, ys) != Greater && CompareTokens(ys, zs) != Greater
    ensures CompareTokens(xs, zs) != Greater
    ensures CompareTokens(xs, ys) == Less || CompareTokens(ys, zs) == Less ==>
              CompareTokens(xs, zs) == Less
  {
    if xs != [] && ys != [] && zs != [] {
      if CompareToken(xs[0], ys[0]) == Equal && CompareToken(ys[0], zs[0]) == Equal {
        TokenListsTransitive(xs[1..], ys[1..], zs[1..]);
      }
    }
  }

  /** Reflexive, antisymmetric in sign, and transitive, on all strings. */
  lemma CompareIsTotalPreorder(a: string, b: string, c: string)
    ensures Compare(a, a) == Equal
    ensures Compare(b, a) == Flip(Compare(a, b))
    ensures Compare(a, b) != Greater && Compare(b, c) != Greater ==> Compare(a, c) != Greater
    ensures Compare(a, b) != Greater && Compare(b, c) != Greater && Compare(a, c) == Equal ==>
              Compare(a, b) == Equal && Compare(b, c) == Equal
  {
    TokensAreValid(a);
    TokensAreValid(b);
    TokensAreValid(c);
    TokenListsReflexive(Tokens(a));
    TokenListsFlip(Tokens(a), Tokens(b));
    if Compare(a, b) != Greater && Compare(b, c) != Greater {
      TokenListsTransitive(Tokens(a), Tokens(b), Tokens(c));
    }
  }

  // ---------------------------------------------------------------------
  // The sort key
  // ---------------------------------------------------------------------

  function Zeros(n: nat): (s: string)
    ensures |s| == n && forall i :: 0 <= i < n ==> s[i] == '0'
  {
    seq(n, i => '0')
  }

  /** Left padding to 20 characters; longer runs are kept whole. */
  function Pad(digits: string): string {
    if |digits| < PAD_WIDTH then Zeros(PAD_WIDTH - |digits|) + digits else digits
  }

  function TokenKey(t: Token): string {
    match t
    case Num(d) => Pad(d)
    case Ch(c) => [Lower(c)]
  }

  function KeyOf(ts: seq<Token>): string {
    if ts == [] then [] else TokenKey(ts[0]) + KeyOf(ts[1..])
  }

  function Key(s: string): string {
    KeyOf(Tokens(s))
  }

  /** The inner loop of the key: collect one digit run. */
  method TakeDigits(s: string, start: nat) returns (digits: string, end: nat)
    requires start <= |s|
    ensures end == start + RunLength(s[start..]) && end <= |s| && digits == s[start..end]
  {
    digits, end := [], start;
    while end < |s| && IsDigit(s[end])
      invariant start <= end <= |s|
      invariant digits == s[start..end] && AllDigits(digits)
    {
      digits := digits + [s[end]];
      end := end + 1;
    }
    assert s[start..][..end - start] == digits;
    RunLengthIs(s[start..], end - start);
  }

  lemma KeyStep(s: string, i: nat)
    requires i < |s|
    ensures IsDigit(s[i]) ==>
              var k := i + RunLength(s[i..]);
              i < k <= |s| && Key(s[i..]) == Pad(s[i..k]) + Key(s[k..])
    ensures !IsDigit(s[i]) ==> Key(s[i..]) == [Lower(s[i])] + Key(s[i + 1..])
  {
    TokensStep(s, i);
    assert Tokens(s[i..])[1..] ==
           if IsDigit(s[i]) then Tokens(s[i + RunLength(s[i..])..]) else Tokens(s[i + 1..]);
  }

  method ComputeKey(s: string) returns (out: string)
    ensures out == Key(s)
  {
    out := [];
    var i := 0;
    assert s[i..] == s;
    while i < |s|
      invariant 0 <= i <= |s|
      invariant Key(s) == out + Key(s[i..])
    {
      KeyStep(s, i);
      var piece, next;
      if IsDigit(s[i]) {
        var digits, end := TakeDigits(s, i);
        piece, next := Pad(digits), end;
      } else {
        piece, next := [Lower(s[i])], i + 1;
      }
      ConcatAssoc(out, piece, Key(s[next..]));
      out, i := out + piece, next;
    }
  }

  /** Every digit run of a name is at most `n` characters long, leading zeros included. */
  predicate RunsWithin(s: string, n: nat) {
    forall t :: t in Tokens(s) && t.Num? ==> |t.digits| <= n
  }

  predicate ShortTokens(ts: seq<Token>) {
    forall t :: t in ts && t.Num? ==> |t.digits| <= 20
  }

  lemma PadKeepsValue(d: string)
    requires AllDigits(d)
    ensures AllDigits(Pad(d)) && DecValue(Pad(d)) == DecValue(d)
  {
    if |d| < 20 {
      LeadingZeros(Zeros(20 - |d|), d);
    }
  }

  lemma PaddedOrder(d: string, e: string)
    requires AllDigits(d) && AllDigits(e) && |d| <= 20 && |e| <= 20
    ensures Lex(Pad(d), Pad(e)) == CompareInt(Saturated(d), Saturated(e))
  {
    PadKeepsValue(d);
    PadKeepsValue(e);
    LexOfNumerals(Pad(d), Pad(e));
    NumeralBound(Pad(d));
    NumeralBound(Pad(e));
    Pow10Twenty();
  }

  lemma {:induction false} KeyOrderOnTokens(xs: seq<Token>, ys: seq<Token>)
    requires ValidTokens(xs) && ValidTokens(ys) && ShortTokens(xs) && ShortTokens(ys)
    ensures Lex(KeyOf(xs), KeyOf(ys)) == CompareTokens(xs, ys)
  {
    if xs != [] && ys != [] {
      var x, y := xs[0], ys[0];
      assert x in xs && y in ys;
      var u, v := KeyOf(xs[1..]), KeyOf(ys[1..]);
      KeyOrderOnTokens(xs[1..], ys[1..]);
      if x.Num? == y.Num? {
        LexOfConcat(TokenKey(x), TokenKey(y), u, v);
        LexEqualIsIdentity(TokenKey(x), TokenKey(y));
        if x.Num? {
          PaddedOrder(x.digits, y.digits);
        }
      } else {
        var kx, ky := TokenKey(x), TokenKey(y);
        if x.Num? { PadKeepsValue(x.digits); } else { PadKeepsValue(y.digits); }
        assert (kx + u)[0] == kx[0] && (ky + v)[0] == ky[0];
      }
    }
  }

  /** Code-point order on the keys is exactly the comparator's order. */
  lemma KeyRefinesCompare(a: string, b: string)
    requires RunsWithin(a, 20) && RunsWithin(b, 20)
    ensures Lex(Key(a), Key(b)) == Compare(a, b)
    ensures Key(a) == Key(b) <==> Compare(a, b) == Equal
  {
    TokensAreValid(a);
    TokensAreValid(b);
    KeyOrderOnTokens(Tokens(a), Tokens(b));
    LexEqualIsIdentity(Key(a), Key(b));
  }

  /** The padding width is the exact limit: the two orders agree on all names
      whose digit runs have at most `n` characters if and only if `n <= 20`. */
  lemma AgreementLimit(n: nat)
    ensures n <= 20 <==>
            forall a, b :: RunsWithin(a, n) && RunsWithin(b, n) ==> Lex(Key(a), Key(b)) == Compare(a, b)
  {
    if n <= 20 {
      forall a, b | RunsWithin(a, n) && RunsWithin(b, n)
        ensures Lex(Key(a), Key(b)) == Compare(a, b)
      {
        KeyRefinesCompare(a, b);
      }
    } else {
      var a, b := TwentyOneDigits();
      assert RunsWithin(a, n) && RunsWithin(b, n);
    }
  }

  lemma Pow10Twenty()
    ensures Pow10(20) == 100_000_000_000_000_000_000 && Pow10(19) == 10_000_000_000_000_000_000
  {
    assert Pow10(5) == 100_000;
    assert Pow10(10) == 10_000_000_000;
    assert Pow10(15) == 1_000_000_000_000_000;
  }

  lemma OneRun(d: string)
    requires AllDigits(d) && d != []
    ensures Tokens(d) == [Num(d)] && Key(d) == Pad(d)
  {
    assert d[..|d|] == d && d[|d|..] == [];
    RunLengthIs(d, |d|);
    assert KeyOf([Num(d)][1..]) == [];
  }

  /** A 21-digit number sorts before a smaller 20-digit one by key. */
  lemma TwentyOneDigits() returns (a: string, b: string)
    ensures RunsWithin(a, 21) && RunsWithin(b, 20)
    ensures Compare(a, b) == Greater && Lex(Key(a), Key(b)) == Less
  {
    a, b := ['1'] + Zeros(20), ['2'] + Zeros(19);
    ZerosAfter('1', 20);
    ZerosAfter('2', 19);
    Pow10Twenty();
    OneRun(a);
    OneRun(b);
    assert Saturated(a) == 100_000_000_000_000_000_000 && Saturated(b) == 20_000_000_000_000_000_000;
  }

  // ---------------------------------------------------------------------
  // The limit name by name
  // ---------------------------------------------------------------------

  /** No two digit runs side by side, as in the tokens of a name. */
  predicate Separated(ts: seq<Token>) {
    forall i :: 0 <= i < |ts| - 1 && ts[i].Num? ==> ts[i + 1].Ch?
  }

  lemma {:induction false} TokensSeparated(s: string)
    ensures Separated(Tokens(s))
    ensures s != [] && !IsDigit(s[0]) ==> Tokens(s) != [] && Tokens(s)[0].Ch?
    decreases |s|
  {
    if s != [] {
      var rest := if IsDigit(s[0]) then s[RunLength(s)..] else s[1..];
      TokensSeparated(rest);
      assert Tokens(s)[1..] == Tokens(rest);
      forall i | 0 <= i < |Tokens(s)| - 1 && Tokens(s)[i].Num?
        ensures Tokens(s)[i + 1].Ch?
      {
        assert Tokens(s)[i + 1] == Tokens(rest)[i];
        assert i > 0 ==> Tokens(s)[i] == Tokens(rest)[i - 1];
      }
    }
  }

  function Spell(ts: seq<Token>): string {
    if ts == [] then []
    else (match ts[0] case Num(d) => d case Ch(c) => [c]) + Spell(ts[1..])
  }

  /** Separated tokens are the tokens of their spelling. */
  lemma {:induction false} SpellTokens(ts: seq<Token>)
    requires ValidTokens(ts) && Separated(ts)
    ensures Tokens(Spell(ts)) == ts
    ensures ts != [] ==> Spell(ts) != [] && (ts[0].Ch? ==> Spell(ts)[0] == ts[0].c)
  {
    if ts != [] {
      var tail, rest, s := ts[1..], Spell(ts[1..]), Spell(ts);
      forall i | 0 <= i < |tail| - 1 && tail[i].Num?
        ensures tail[i + 1].Ch?
      {
        assert ts[i + 1] == tail[i] && ts[i + 2] == tail[i + 1];
      }
      SpellTokens(tail);
      match ts[0] {
        case Num(d) =>
          assert s[..|d|] == d && s[|d|..] == rest;
          assert tail != [] ==> tail[0] == ts[1];
          RunLengthIs(s, |d|);
          assert s[0] == d[0];
        case Ch(c) =>
          assert s[1..] == rest;
      }
    }
  }

  const TOP: char := '\U{10FFFF}'

  function Tops(n: nat): (ts: seq<Token>)
    ensures |ts| == n && forall i :: 0 <= i < n ==> ts[i] == Ch(TOP)
  {
    seq(n, i => Ch(TOP))
  }

  lemma {:induction false} BelowTops(ts: seq<Token>, n: nat)
    requires ValidTokens(ts) && |ts| < n
    ensures CompareTokens(ts, Tops(n)) == Less
  {
    if ts != [] {
      BelowTops(ts[1..], n - 1);
      assert Tops(n)[1..] == Tops(n - 1);
    }
  }

  lemma {:induction false} PrefixValue(d: string, k: nat)
    requires AllDigits(d) && k <= |d|
    ensures AllDigits(d[..k]) && DecValue(d[..k]) <= DecValue(d)
    ensures k < |d| && DecValue(d[..k]) > 0 ==> DecValue(d[..k]) < DecValue(d)
  {
    if k < |d| {
      var init := d[..|d| - 1];
      PrefixValue(init, k);
      assert init[..k] == d[..k];
    } else {
      assert d[..k] == d;
    }
  }

  /** What follows a cut-off run so that the orders differ. */
  function Spoiler(d: string, rest: seq<Token>): (tail: seq<Token>)
    requires AllDigits(d) && ValidTokens(rest) && (rest != [] ==> rest[0].Ch?)
    ensures ValidTokens(tail) && ShortTokens(tail) && (forall i :: 0 <= i < |tail| ==> tail[i].Ch?)
  {
    if DecValue(d) > 0 then [Ch('a')]
    else if rest == [] then []
    else if Lower(rest[0].c) > '9' then [rest[0]]
    else [rest[0]] + Tops(|rest|)
  }

  lemma CutLex(d: string, u: string, v: string)
    requires AllDigits(d) && |d| > 20
    ensures v == [] ==> Lex(d + u, d[..20] + v) == Greater
    ensures v != [] && v[0] > '9' ==> Lex(d + u, d[..20] + v) == Less
    ensures v != [] && v[0] < '0' ==> Lex(d + u, d[..20] + v) == Greater
  {
    var e, more := d[..20], d[20..];
    assert d == e + more && more[0] == d[20];
    ConcatAssoc(e, more, u);
    LexOfConcat(e, e, more + u, v);
    assert (more + u)[0] == d[20];
  }

  lemma CutCompare(d: string, rest: seq<Token>, tail: seq<Token>)
    requires AllDigits(d) && |d| > 20 && ValidTokens(rest) && ValidTokens(tail)
    ensures var e := d[..20];
            AllDigits(e) && ValidTokens([Num(d)] + rest) && ValidTokens([Num(e)] + tail) &&
            CompareTokens([Num(d)] + rest, [Num(e)] + tail) ==
              if DecValue(d) > 0 then Greater else CompareTokens(rest, tail)
  {
    var e := d[..20];
    PrefixValue(d, 20);
    NumeralBound(e);
    Pow10Twenty();
    var xs, ys := [Num(d)] + rest, [Num(e)] + tail;
    assert xs[1..] == rest && ys[1..] == tail && xs[0] == Num(d) && ys[0] == Num(e);
  }

  lemma KeyOfCh(c: char, ts: seq<Token>)
    ensures KeyOf([Ch(c)] + ts) != [] && KeyOf([Ch(c)] + ts)[0] == Lower(c)
  {
  }

  lemma SpoiledTail(rest: seq<Token>, tail: seq<Token>)
    requires ValidTokens(rest) && rest != [] && rest[0].Ch? && ValidTokens(tail)
    requires tail == if Lower(rest[0].c) > '9' then [rest[0]] else [rest[0]] + Tops(|rest|)
    ensures KeyOf(tail) != [] && (KeyOf(tail)[0] > '9' || KeyOf(tail)[0] < '0')
    ensures KeyOf(tail)[0] > '9' ==> CompareTokens(rest, tail) != Less
    ensures KeyOf(tail)[0] < '0' ==> CompareTokens(rest, tail) == Less
  {
    var c := rest[0].c;
    var more := if Lower(c) > '9' then [] else Tops(|rest|);
    assert tail == [Ch(c)] + more && tail[1..] == more;
    KeyOfCh(c, more);
    if Lower(c) <= '9' {
      BelowTops(rest[1..], |rest|);
    }
  }

  /** A run of more than 20 digits against its first 20, followed by a suitable tail. */
  lemma LongRunDiffers(d: string, rest: seq<Token>)
    requires AllDigits(d) && |d| > 20 && ValidTokens(rest) && (rest != [] ==> rest[0].Ch?)
    ensures var e, tail := d[..20], Spoiler(d, rest);
            AllDigits(e) && ValidTokens([Num(d)] + rest) && ValidTokens([Num(e)] + tail) &&
            Lex(d + KeyOf(rest), e + KeyOf(tail)) != CompareTokens([Num(d)] + rest, [Num(e)] + tail)
  {
    var tail := Spoiler(d, rest);
    CutLex(d, KeyOf(rest), KeyOf(tail));
    CutCompare(d, rest, tail);
    if DecValue(d) > 0 {
      KeyOfCh('a', []);
      assert tail == [Ch('a')] + [];
    } else if rest != [] {
      SpoiledTail(rest, tail);
    }
  }

  lemma {:induction false} LongRunsDiffer(ts: seq<Token>) returns (bs: seq<Token>)
    requires ValidTokens(ts) && Separated(ts) && !ShortTokens(ts)
    ensures ValidTokens(bs) && Separated(bs) && ShortTokens(bs)
    ensures bs != [] && ts != [] && (bs[0].Num? ==> ts[0].Num?)
    ensures Lex(KeyOf(ts), KeyOf(bs)) != CompareTokens(ts, bs)
  {
    var x, rest := ts[0], ts[1..];
    assert rest != [] ==> rest[0] == ts[1];
    if x.Num? && |x.digits| > 20 {
      LongRunDiffers(x.digits, rest);
      bs := [Num(x.digits[..20])] + Spoiler(x.digits, rest);
      assert bs[1..] == Spoiler(x.digits, rest) && ts == [x] + rest;
    } else {
      assert forall t :: t in ts ==> t == x || t in rest;
      forall i | 0 <= i < |rest| - 1 && rest[i].Num?
        ensures rest[i + 1].Ch?
      {
        assert ts[i + 1] == rest[i] && ts[i + 2] == rest[i + 1];
      }
      var more := LongRunsDiffer(rest);
      bs := [x] + more;
      assert bs[1..] == more;
      LexOfConcat(TokenKey(x), TokenKey(x), KeyOf(rest), KeyOf(more));
    }
  }

  /** A name agrees in both orders with every name of short runs if and only if its own runs are short. */
  lemma AgreesIffShort(a: string)
    ensures RunsWithin(a, 20) <==>
            forall b :: RunsWithin(b, 20) ==> Lex(Key(a), Key(b)) == Compare(a, b)
  {
    if RunsWithin(a, 20) {
      forall b | RunsWithin(b, 20)
        ensures Lex(Key(a), Key(b)) == Compare(a, b)
      {
        KeyRefinesCompare(a, b);
      }
    } else {
      TokensAreValid(a);
      TokensSeparated(a);
      var bs := LongRunsDiffer(Tokens(a));
      SpellTokens(bs);
      var b := Spell(bs);
      assert RunsWithin(b, 20) && Lex(Key(a), Key(b)) != Compare(a, b);
    }
  }

  lemma {:induction false} ZerosAfter(c: char, n: nat)
    requires IsDigit(c)
    ensures AllDigits([c] + Zeros(n))
    ensures DecValue([c] + Zeros(n)) == (c as int - '0' as int) * Pow10(n)
  {
    var s := [c] + Zeros(n);
    if n == 0 {
      assert s == [c] && s[..0] == [];
    } else {
      ZerosAfter(c, n - 1);
      assert s[..|s| - 1] == [c] + Zeros(n - 1);
    }
  }

  /** Keys are fixed points of the key function, for all strings. */
  lemma {:induction false} KeyIdempotent(s: string)
    ensures Key(Key(s)) == Key(s)
    ensures s == [] || !IsDigit(s[0]) ==> Key(s) == [] || !IsDigit(Key(s)[0])
    decreases |s|
  {
    if s != [] {
      TokensStep(s, 0);
      assert s[0..] == s;
      if IsDigit(s[0]) {
        var n := RunLength(s);
        var d, rest := s[..n], s[n..];
        KeyIdempotent(rest);
        PadKeepsValue(d);
        assert Tokens(s)[1..] == Tokens(rest);
        var k := Pad(d) + Key(rest);
        assert k[..|Pad(d)|] == Pad(d) && k[|Pad(d)|..] == Key(rest);
        RunLengthIs(k, |Pad(d)|);
        assert Tokens(k)[1..] == Tokens(Key(rest));
      } else {
        var rest := s[1..];
        KeyIdempotent(rest);
        assert Tokens(s)[1..] == Tokens(rest);
        var k := [Lower(s[0])] + Key(rest);
        assert k[1..] == Key(rest);
        assert Tokens(k)[1..] == Tokens(Key(rest));
      }
    }
  }
}
