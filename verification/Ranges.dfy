/** Range header resolution and the bytes it selects (src/routes.rs:490-564 and 595-652). */
module Ranges {
  import opened Wrappers
  import opened Text

  const U64_MAX: nat := 0xFFFF_FFFF_FFFF_FFFF

  /** Unicode White_Space. */
  predicate IsSpace(c: char) {
    var n := c as int;
    9 <= n <= 13 || n == 32 || n == 0x85 || n == 0xA0 || n == 0x1680 || 0x2000 <= n <= 0x200A ||
    n == 0x2028 || n == 0x2029 || n == 0x202F || n == 0x205F || n == 0x3000
  }

  /** The 25 characters with the White_Space property. */
  const WHITE_SPACE: set<char> := {
    '\t', '\n', '\U{B}', '\U{C}', '\r', ' ', '\U{85}', '\U{A0}', '\U{1680}',
    '\U{2000}', '\U{2001}', '\U{2002}', '\U{2003}', '\U{2004}', '\U{2005}', '\U{2006}', '\U{2007}',
    '\U{2008}', '\U{2009}', '\U{200A}', '\U{2028}', '\U{2029}', '\U{202F}', '\U{205F}', '\U{3000}'}

  lemma SpaceIsWhite(c: char)
    ensures IsSpace(c) <==> c in WHITE_SPACE
  {
    assert IsSpace(c) ==> c in WHITE_SPACE;
  }

  function TrimStart(s: string): string {
    if s != [] && IsSpace(s[0]) then TrimStart(s[1..]) else s
  }

  function TrimEnd(s: string): string {
    if s != [] && IsSpace(s[|s| - 1]) then TrimEnd(s[..|s| - 1]) else s
  }

  function Trim(s: string): string {
    TrimEnd(TrimStart(s))
  }

  /** Index of the first occurrence of a character, or the length. */
  function Find(s: string, c: char): (i: nat)
    ensures i <= |s| && (i < |s| ==> s[i] == c) && forall k :: 0 <= k < i ==> s[k] != c
  {
    if s == [] || s[0] == c then 0 else 1 + Find(s[1..], c)
  }

  const UNIT: string := "bytes="

  predicate IsUnit(s: string) {
    |s| == 6 && forall i :: 0 <= i < 6 ==> Lower(s[i]) == UNIT[i]
  }

  /** Parsing of an unsigned 64-bit number: an optional `+`, then digits; overflow is an error. */
  function ParseU64(s: string): Option<nat> {
    var d := if s != [] && s[0] == '+' then s[1..] else s;
    if d == [] || !AllDigits(d) || DecValue(d) > U64_MAX then None else Some(DecValue(d))
  }

  predicate IsNumeral(s: string) {
    s != [] && AllDigits(s)
  }

  /** A number is read exactly from a numeral below 2 to the 64, with or without one `+`. */
  lemma ParseU64Iff(s: string, v: nat)
    ensures ParseU64(s) == Some(v) <==>
            v < 0x1_0000_0000_0000_0000 &&
            exists d :: IsNumeral(d) && DecValue(d) == v && (s == d || s == "+" + d)
  {
    if ParseU64(s) == Some(v) {
      var d := if s[0] == '+' then s[1..] else s;
      assert IsNumeral(d) && (s == d || s == "+" + d);
    }
  }

  datatype RangeSpec = Full | Partial(start: nat, end: nat) | Unsatisfiable

  /** The part of the parser after the two positions are split and trimmed. */
  function Resolve(from: string, to: string, len: nat): RangeSpec {
    if from == [] then
      var n := ParseU64(to);
      if n.None? then Full
      else if n.value == 0 || len == 0 then Unsatisfiable
      else Partial(if len >= n.value then len - n.value else 0, len - 1)
    else
      var start := ParseU64(from);
      if start.None? then Full
      else if start.value >= len then Unsatisfiable
      else if to == [] then Partial(start.value, len - 1)
      else
        var e := ParseU64(to);
        if e.None? then Full
        else
          var end := Min(e.value, len - 1);
          if end < start.value then Unsatisfiable else Partial(start.value, end)
  }

  function ParseRange(raw: Option<string>, len: nat): RangeSpec {
    if raw.None? then Full
    else
      var r := Trim(raw.value);
      if |r| < 6 || !IsUnit(r[..6]) then Full
      else
        var spec := Trim(r[6..]);
        if ',' in spec then Full
        else
          var i := Find(spec, '-');
          if i == |spec| then Full
          else Resolve(Trim(spec[..i]), Trim(spec[i + 1..]), len)
  }

  /** Every partial answer is a non-empty range inside the file. */
  lemma PartialIsInside(raw: Option<string>, len: nat)
    ensures var r := ParseRange(raw, len); r.Partial? ==> r.start <= r.end < len
  {
  }

  // ---------------------------------------------------------------------
  // Trimming
  // ---------------------------------------------------------------------

  predicate AllSpace(s: string) {
    forall i :: 0 <= i < |s| ==> IsSpace(s[i])
  }

  lemma {:induction false} TrimStartSkips(w: string, s: string)
    requires AllSpace(w)
    ensures TrimStart(w + s) == TrimStart(s)
  {
    if w == [] {
      assert w + s == s;
    } else {
      TrimStartSkips(w[1..], s);
      assert (w + s)[1..] == w[1..] + s;
    }
  }

  lemma {:induction false} TrimStartStops(s: string, x: string)
    requires x != [] && !IsSpace(x[0])
    ensures TrimStart(s + x) == TrimStart(s) + x
  {
    if s == [] {
      assert s + x == x && TrimStart(s) + x == x;
    } else {
      TrimStartStops(s[1..], x);
      assert (s + x)[1..] == s[1..] + x;
    }
  }

  lemma {:induction false} TrimEndStops(x: string, s: string)
    requires x != [] && !IsSpace(x[|x| - 1])
    ensures TrimEnd(x + s) == x + TrimEnd(s)
  {
    if s == [] {
      assert x + s == x && x + TrimEnd(s) == x;
    } else {
      TrimEndStops(x, s[..|s| - 1]);
      assert (x + s)[..|x + s| - 1] == x + s[..|s| - 1];
    }
  }

  /** Trimming one end first does not matter. */
  lemma {:induction false} TrimOfTrimStart(s: string)
    ensures Trim(TrimStart(s)) == Trim(s)
  {
    if s != [] && IsSpace(s[0]) {
      TrimOfTrimStart(s[1..]);
    }
  }

  lemma {:induction false} TrimStartEndCommute(s: string)
    ensures TrimStart(TrimEnd(s)) == TrimEnd(TrimStart(s))
  {
    if s != [] && IsSpace(s[0]) {
      TrimStartEndCommute(s[1..]);
      if s[1..] == [] {
        assert s == [s[0]] && s[..0] == [];
      } else {
        TrimEndTail(s);
      }
    } else if s != [] {
      TrimEndStops([s[0]], s[1..]);
      assert s == [s[0]] + s[1..];
    }
  }

  lemma {:induction false} TrimEndTail(s: string)
    requires s != [] && IsSpace(s[0])
    ensures TrimStart(TrimEnd(s)) == TrimStart(TrimEnd(s[1..]))
  {
    if |s| == 1 {
      assert s[..0] == [] && s[1..] == [];
    } else if IsSpace(s[|s| - 1]) {
      TrimEndTail(s[..|s| - 1]);
      assert s[..|s| - 1][1..] == s[1..][..|s[1..]| - 1];
    }
  }

  lemma {:induction false} TrimEndTwice(s: string)
    ensures TrimEnd(TrimEnd(s)) == TrimEnd(s)
  {
    if s != [] && IsSpace(s[|s| - 1]) {
      TrimEndTwice(s[..|s| - 1]);
    }
  }

  lemma TrimOfTrimEnd(s: string)
    ensures Trim(TrimEnd(s)) == Trim(s)
  {
    TrimStartEndCommute(s);
    TrimEndTwice(TrimStart(s));
  }

  lemma {:induction false} TrimEndSkips(s: string, w: string)
    requires AllSpace(w)
    ensures TrimEnd(s + w) == TrimEnd(s)
    decreases |w|
  {
    if w == [] {
      assert s + w == s;
    } else {
      TrimEndSkips(s, w[..|w| - 1]);
      assert (s + w)[..|s + w| - 1] == s + w[..|w| - 1];
    }
  }

  /** Trimming takes away the spaces at both ends and nothing else. */
  lemma TrimStrips(w: string, x: string, v: string)
    requires AllSpace(w) && AllSpace(v) && (x != [] ==> !IsSpace(x[0]) && !IsSpace(x[|x| - 1]))
    ensures Trim(w + x + v) == x
  {
    ConcatAssoc(w, x, v);
    TrimStartSkips(w, x + v);
    TrimStartEndCommute(x + v);
    TrimEndSkips(x, v);
  }

  lemma {:induction false} TrimKeepsParts(s: string)
    ensures forall c :: c in TrimStart(s) ==> c in s
    ensures forall c :: c in TrimEnd(s) ==> c in s
    decreases |s|
  {
    if s != [] {
      var tail, init := s[1..], s[..|s| - 1];
      TrimKeepsParts(tail);
      TrimKeepsParts(init);
      assert forall c :: c in tail ==> c in s;
      assert forall c :: c in init ==> c in s;
    }
  }

  // ---------------------------------------------------------------------
  // The parser on well-shaped headers
  // ---------------------------------------------------------------------

  lemma FindSplits(a: string, c: char, b: string)
    requires c !in a
    ensures var s := a + [c] + b; Find(s, c) == |a| && s[..|a|] == a && s[|a| + 1..] == b
  {
    var s := a + [c] + b;
    assert s[|a|] == c;
  }

  lemma HeaderParts(w: string, unit: string, a: string, b: string)
    ensures w + unit + a + ['-'] + b == w + (unit + (a + ['-'] + b))
  {
    ConcatAssoc(w + unit + a, ['-'], b);
    ConcatAssoc(w + unit, a, ['-'] + b);
    ConcatAssoc(a, ['-'], b);
    ConcatAssoc(w, unit, a + ['-'] + b);
  }

  /** Spaces before the unit and around both positions, and the case of the unit, are
      ignored: the header resolves as its two trimmed positions do. */
  lemma HeaderShape(w: string, unit: string, a: string, b: string, len: nat)
    requires AllSpace(w) && IsUnit(unit) && '-' !in a && ',' !in a && ',' !in b
    ensures ParseRange(Some(w + unit + a + ['-'] + b), len) == Resolve(Trim(a), Trim(b), len)
  {
    var y := a + ['-'] + b;
    HeaderParts(w, unit, a, b);
    UnitHasNoSpace(unit);
    TrimStartSkips(w, unit + y);
    assert TrimStart(unit + y) == unit + y;
    TrimEndStops(unit, y);
    var r := Trim(w + (unit + y));
    assert r == unit + TrimEnd(y) && r[..6] == unit && r[6..] == TrimEnd(y);
    TrimOfTrimEnd(y);
    ConcatAssoc(a, ['-'], b);
    TrimStartStops(a, ['-'] + b);
    ConcatAssoc(TrimStart(a), ['-'], b);
    TrimEndStops(TrimStart(a) + ['-'], b);
    var spec := Trim(y);
    assert spec == TrimStart(a) + ['-'] + TrimEnd(b);
    TrimKeepsParts(a);
    TrimKeepsParts(b);
    FindSplits(TrimStart(a), '-', TrimEnd(b));
    TrimOfTrimStart(a);
    TrimOfTrimEnd(b);
  }

  lemma UnitHasNoSpace(unit: string)
    requires IsUnit(unit)
    ensures forall i :: 0 <= i < 6 ==> !IsSpace(unit[i])
  {
    assert UNIT == ['b', 'y', 't', 'e', 's', '='];
  }

  lemma NumeralShape(d: string)
    requires AllDigits(d)
    ensures Trim(d) == d && '-' !in d && ',' !in d
    ensures d != [] && DecValue(d) <= 0xFFFF_FFFF_FFFF_FFFF ==> ParseU64(d) == Some(DecValue(d))
    ensures DecValue(d) > 0xFFFF_FFFF_FFFF_FFFF ==> ParseU64(d) == None
  {
  }

  function Header(from: string, to: string): string {
    UNIT + from + ['-'] + to
  }

  lemma HeaderOfNumerals(from: string, to: string, len: nat)
    requires AllDigits(from) && AllDigits(to)
    ensures ParseRange(Some(Header(from, to)), len) == Resolve(from, to, len)
  {
    NumeralShape(from);
    NumeralShape(to);
    assert IsUnit(UNIT);
    HeaderShape([], UNIT, from, to, len);
    assert [] + UNIT == UNIT;
  }

  /** Printing a range and parsing it back gives the range. */
  lemma PrintedRangeParses(start: nat, end: nat, len: nat)
    requires start <= end < len <= 0xFFFF_FFFF_FFFF_FFFF
    ensures ParseRange(Some(Header(Decimal(start), Decimal(end))), len) == Partial(start, end)
  {
    DecimalReadsBack(start);
    DecimalReadsBack(end);
    NumeralShape(Decimal(start));
    NumeralShape(Decimal(end));
    HeaderOfNumerals(Decimal(start), Decimal(end), len);
  }

  /** A suffix range is its explicit form. */
  lemma SuffixIsExplicit(n: nat, len: nat)
    requires 0 < n <= 0xFFFF_FFFF_FFFF_FFFF && 0 < len <= 0xFFFF_FFFF_FFFF_FFFF
    ensures ParseRange(Some(Header([], Decimal(n))), len) ==
            ParseRange(Some(Header(Decimal(if len >= n then len - n else 0), Decimal(len - 1))), len)
  {
    DecimalReadsBack(n);
    NumeralShape(Decimal(n));
    HeaderOfNumerals([], Decimal(n), len);
    PrintedRangeParses(if len >= n then len - n else 0, len - 1, len);
  }

  // ---------------------------------------------------------------------
  // Section 2.1 of RFC 7233
  // ---------------------------------------------------------------------

  /** A byte-range-spec or a suffix-byte-range-spec, as its numerals. */
  datatype ByteRange = FirstLast(first: string, last: Option<string>) | SuffixLength(n: string)

  predicate Grammatical(r: ByteRange) {
    match r
    case FirstLast(f, l) => IsNumeral(f) && (l.Some? ==> IsNumeral(l.value))
    case SuffixLength(n) => IsNumeral(n)
  }

  /** A byte-range-spec is invalid if its last position is below its first. */
  predicate ValidRange(r: ByteRange)
    requires Grammatical(r)
  {
    r.FirstLast? && r.last.Some? ==> DecValue(r.first) <= DecValue(r.last.value)
  }

  predicate Satisfiable(r: ByteRange, len: nat)
    requires Grammatical(r)
  {
    match r
    case FirstLast(f, _) => DecValue(f) < len
    case SuffixLength(n) => DecValue(n) > 0
  }

  /** The position is one the range asks for: at most the last, or among the last `n`. */
  predicate Asked(r: ByteRange, len: nat, i: int)
    requires Grammatical(r)
  {
    0 <= i < len &&
    match r
    case FirstLast(f, l) => DecValue(f) <= i && (l.Some? ==> i <= DecValue(l.value))
    case SuffixLength(n) => len - DecValue(n) <= i
  }

  function Render(r: ByteRange): string {
    match r
    case FirstLast(f, l) => Header(f, if l.Some? then l.value else [])
    case SuffixLength(n) => Header([], n)
  }

  predicate FitsU64(r: ByteRange)
    requires Grammatical(r)
  {
    match r
    case FirstLast(f, l) =>
      DecValue(f) <= 0xFFFF_FFFF_FFFF_FFFF && (l.Some? ==> DecValue(l.value) <= 0xFFFF_FFFF_FFFF_FFFF)
    case SuffixLength(n) => DecValue(n) <= 0xFFFF_FFFF_FFFF_FFFF
  }

  ghost predicate Selects(s: RangeSpec, r: ByteRange, len: nat)
    requires Grammatical(r)
  {
    s.Partial? && forall i :: s.start <= i <= s.end <==> Asked(r, len, i)
  }

  lemma RangeResolves(r: ByteRange, len: nat)
    requires Grammatical(r)
    ensures ParseRange(Some(Render(r)), len) ==
            match r
            case FirstLast(f, l) => Resolve(f, if l.Some? then l.value else [], len)
            case SuffixLength(n) => Resolve([], n, len)
  {
    match r
    case FirstLast(f, l) => HeaderOfNumerals(f, if l.Some? then l.value else [], len);
    case SuffixLength(n) => HeaderOfNumerals([], n, len);
  }

  /** A valid satisfiable single range of a non-empty file selects exactly the positions
      the RFC gives it if and only if its numerals fit in 64 bits; otherwise it is ignored. */
  lemma FollowsRfc7233Iff(r: ByteRange, len: nat)
    requires Grammatical(r) && ValidRange(r) && Satisfiable(r, len) && 0 < len <= 0xFFFF_FFFF_FFFF_FFFF
    ensures Selects(ParseRange(Some(Render(r)), len), r, len) <==> FitsU64(r)
    ensures !FitsU64(r) ==> ParseRange(Some(Render(r)), len) == Full
  {
    RangeResolves(r, len);
    match r {
      case FirstLast(f, l) =>
        NumeralShape(f);
        if l.Some? { NumeralShape(l.value); }
      case SuffixLength(n) =>
        NumeralShape(n);
    }
    var s := ParseRange(Some(Render(r)), len);
    if s.Partial? {
      forall i
        ensures s.start <= i <= s.end <==> Asked(r, len, i)
      {
      }
    }
  }

  /** A range whose last position is below its first, which the RFC calls invalid, is ignored
      if and only if its numerals do not fit in 64 bits; otherwise it is refused, as section 4.4
      of the RFC allows. */
  lemma InvalidIsRefusedIff(r: ByteRange, len: nat)
    requires Grammatical(r) && !ValidRange(r)
    ensures ParseRange(Some(Render(r)), len) == Full <==> !FitsU64(r)
    ensures ParseRange(Some(Render(r)), len) == Unsatisfiable <==> FitsU64(r)
  {
    RangeResolves(r, len);
    NumeralShape(r.first);
    NumeralShape(r.last.value);
  }

  // ---------------------------------------------------------------------
  // Malformed values
  // ---------------------------------------------------------------------

  /** A pair of positions of which one that is needed is not a number, or does not fit in 64 bits. */
  predicate Malformed(from: string, to: string) {
    if from == [] then ParseU64(to).None? else ParseU64(from).None? || (to != [] && ParseU64(to).None?)
  }

  /** The first position is a number at or beyond the end of the file. */
  predicate StartsBeyond(from: string, len: nat) {
    var start := ParseU64(from);
    start.Some? && start.value >= len
  }

  /** The parser promises to ignore malformed values. It does so if and only if the first
      position is not a number at or beyond the end of the file: then the value is refused
      before its other position is looked at. */
  lemma MalformedIsIgnoredIff(w: string, unit: string, a: string, b: string, len: nat)
    requires AllSpace(w) && IsUnit(unit) && '-' !in a && ',' !in a && ',' !in b
    requires Malformed(Trim(a), Trim(b))
    ensures var r := ParseRange(Some(w + unit + a + ['-'] + b), len);
            (r == Full <==> !StartsBeyond(Trim(a), len)) &&
            (r == Unsatisfiable <==> StartsBeyond(Trim(a), len))
  {
    HeaderShape(w, unit, a, b, len);
  }

  /** A header without the unit, with a comma, or without a dash is always ignored. */
  lemma UnknownIsIgnored(raw: string, len: nat)
    requires var r := Trim(raw);
             |r| < 6 || !IsUnit(r[..6]) || ',' in Trim(r[6..]) || '-' !in Trim(r[6..])
    ensures ParseRange(Some(raw), len) == Full
  {
  }

  lemma NineAndX()
    ensures ParseU64("9") == Some(9) && Trim("9") == "9" && ParseU64("x") == None && Trim("x") == "x"
  {
    var from, to := "9", "x";
    assert from[..0] == [] && DecValue(from) == 9;
    NumeralShape(from);
    assert to[0] == 'x';
  }

  /** `bytes=9-x` is malformed, yet refused for a file of five bytes. */
  lemma MalformedRefused()
    ensures Malformed("9", "x") && ParseRange(Some("bytes=9-x"), 5) == Unsatisfiable
  {
    var from, to := "9", "x";
    NineAndX();
    assert '-' !in from && ',' !in from && ',' !in to && [] + UNIT == UNIT;
    MalformedIsIgnoredIff([], UNIT, from, to, 5);
    assert UNIT + from + ['-'] + to == "bytes=9-x";
  }

  // ---------------------------------------------------------------------
  // The response
  // ---------------------------------------------------------------------

  datatype Response<T> = Response(status: int, contentRange: Option<string>, length: Option<nat>, body: seq<T>)

  predicate Inside(spec: RangeSpec, len: nat) {
    spec.Partial? ==> spec.start <= spec.end < len
  }

  /** Seek to the start, take the count, and describe what was taken. */
  function Answer<T>(data: seq<T>, spec: RangeSpec): Response<T>
    requires Inside(spec, |data|)
  {
    match spec
    case Full => Response(200, None, Some(|data|), data)
    case Partial(start, end) =>
      var count := end - start + 1;
      Response(206, Some("bytes " + Decimal(start) + "-" + Decimal(end) + "/" + Decimal(|data|)),
               Some(count), data[start..][..count])
    case Unsatisfiable => Response(416, Some("bytes */" + Decimal(|data|)), None, [])
  }

  function Serve<T>(data: seq<T>, raw: Option<string>): Response<T> {
    PartialIsInside(raw, |data|);
    Answer(data, ParseRange(raw, |data|))
  }

  function ReadPositions(s: string): Option<(nat, nat, nat)> {
    var i := Find(s, '-');
    if i == |s| then None
    else
      var tail := s[i + 1..];
      var j := Find(tail, '/');
      if j == |tail| || !IsNumeral(s[..i]) || !IsNumeral(tail[..j]) || !IsNumeral(tail[j + 1..]) then None
      else Some((DecValue(s[..i]), DecValue(tail[..j]), DecValue(tail[j + 1..])))
  }

  /** What a client reads from `bytes first-last/total`. */
  function ReadContentRange(s: string): Option<(nat, nat, nat)> {
    if |s| < 6 || s[..6] != "bytes " then None else ReadPositions(s[6..])
  }

  lemma PositionsReadBack(f: string, l: string, t: string)
    requires IsNumeral(f) && IsNumeral(l) && IsNumeral(t)
    ensures ReadPositions(f + "-" + (l + "/" + t)) == Some((DecValue(f), DecValue(l), DecValue(t)))
  {
    FindSplits(f, '-', l + "/" + t);
    FindSplits(l, '/', t);
  }

  lemma ContentRangeReadsBack(f: string, l: string, t: string)
    requires IsNumeral(f) && IsNumeral(l) && IsNumeral(t)
    ensures ReadContentRange("bytes " + f + "-" + l + "/" + t) == Some((DecValue(f), DecValue(l), DecValue(t)))
  {
    var unit := "bytes ";
    var rest := f + "-" + (l + "/" + t);
    ConcatAssoc(unit + f + "-", l, "/");
    ConcatAssoc(unit + f + "-", l + "/", t);
    ConcatAssoc(unit, f, "-");
    ConcatAssoc(unit, f + "-", l + "/" + t);
    assert unit + f + "-" + l + "/" + t == unit + rest;
    PositionsReadBack(f, l, t);
    Prefixed(unit, rest);
  }

  lemma Prefixed<T>(a: seq<T>, b: seq<T>)
    ensures (a + b)[..|a|] == a && (a + b)[|a|..] == b
  {
  }

  /** A partial answer holds the selected bytes, announces their number, and names their first
      position, their last, and the length of the file. */
  lemma PartAnswered<T>(data: seq<T>, spec: RangeSpec)
    requires spec.Partial? && Inside(spec, |data|)
    ensures var r := Answer(data, spec);
            r.status == 206 && r.length == Some(|r.body|) && r.body == data[spec.start..spec.end + 1] &&
            r.contentRange.Some? && ReadContentRange(r.contentRange.value) == Some((spec.start, spec.end, |data|))
  {
    DecimalReadsBack(spec.start);
    DecimalReadsBack(spec.end);
    DecimalReadsBack(|data|);
    ContentRangeReadsBack(Decimal(spec.start), Decimal(spec.end), Decimal(|data|));
    assert data[spec.start..][..spec.end - spec.start + 1] == data[spec.start..spec.end + 1];
  }

  lemma ServedPart<T>(data: seq<T>, raw: Option<string>)
    requires ParseRange(raw, |data|).Partial?
    ensures var r, part := Serve(data, raw), ParseRange(raw, |data|);
            r.status == 206 && r.length == Some(|r.body|) && part.start <= part.end < |data| &&
            r.body == data[part.start..part.end + 1] &&
            r.contentRange.Some? && ReadContentRange(r.contentRange.value) == Some((part.start, part.end, |data|))
  {
    PartialIsInside(raw, |data|);
    PartAnswered(data, ParseRange(raw, |data|));
  }

  /** Without a range, or with one that is ignored, the whole file is sent with its length; an
      unsatisfiable range is answered with no bytes and the length of the file. */
  lemma ServedWholeOrRefused<T>(data: seq<T>, raw: Option<string>)
    ensures raw == None || ParseRange(raw, |data|) == Full ==>
              var r := Serve(data, raw);
              r.status == 200 && r.contentRange == None && r.length == Some(|data|) && r.body == data
    ensures ParseRange(raw, |data|) == Unsatisfiable ==>
              var r := Serve(data, raw);
              r.status == 416 && r.body == [] && r.length == None &&
              exists n :: IsNumeral(n) && DecValue(n) == |data| && r.contentRange == Some("bytes */" + n)
  {
    DecimalReadsBack(|data|);
  }

  /** `body` is the run of the file's bytes from `start` on. */
  ghost predicate IsRun<T>(data: seq<T>, start: int, body: seq<T>) {
    0 <= start && start + |body| <= |data| && body == data[start..start + |body|]
  }

  /** The bytes at the positions a range asks for, in order. */
  ghost predicate HoldsAsked<T>(data: seq<T>, r: ByteRange, body: seq<T>)
    requires Grammatical(r)
  {
    exists start :: IsRun(data, start, body) &&
      forall i :: start <= i < start + |body| <==> Asked(r, |data|, i)
  }

  /** A range of section 2.1 of the RFC whose numerals fit gets exactly the bytes at the positions it
      asks for, in order, or is refused if it asks for none. */
  lemma ServesWhatIsAsked<T>(data: seq<T>, r: ByteRange)
    requires Grammatical(r) && ValidRange(r) && FitsU64(r) && |data| <= 0xFFFF_FFFF_FFFF_FFFF
    ensures var answer := Serve(data, Some(Render(r)));
            if exists i :: Asked(r, |data|, i) then answer.status == 206 && HoldsAsked(data, r, answer.body)
            else answer.status == 416 && answer.body == []
  {
    SatisfiableIffAsked(r, |data|);
    if Satisfiable(r, |data|) && data != [] {
      FollowsRfc7233Iff(r, |data|);
      AnswerIsSelected(data, r, ParseRange(Some(Render(r)), |data|));
    } else {
      RefusedIsUnsatisfiable(r, |data|);
    }
  }

  lemma SatisfiableIffAsked(r: ByteRange, len: nat)
    requires Grammatical(r) && ValidRange(r)
    ensures Satisfiable(r, len) && len > 0 <==> exists i :: Asked(r, len, i)
  {
    if Satisfiable(r, len) && len > 0 {
      assert Asked(r, len, if r.FirstLast? then DecValue(r.first) else len - 1);
    }
  }

  lemma AnswerIsSelected<T>(data: seq<T>, r: ByteRange, s: RangeSpec)
    requires Grammatical(r) && Inside(s, |data|) && Selects(s, r, |data|)
    ensures var answer := Answer(data, s);
            answer.status == 206 && HoldsAsked(data, r, answer.body)
  {
    PartAnswered(data, s);
    assert IsRun(data, s.start, Answer(data, s).body);
  }

  lemma RefusedIsUnsatisfiable(r: ByteRange, len: nat)
    requires Grammatical(r) && (!Satisfiable(r, len) || len == 0) && FitsU64(r)
    ensures ParseRange(Some(Render(r)), len) == Unsatisfiable
  {
    RangeResolves(r, len);
    match r
    case FirstLast(f, _) => NumeralShape(f);
    case SuffixLength(n) => NumeralShape(n);
  }

  lemma OpenEndedParses(k: nat, len: nat)
    requires k < len <= 0xFFFF_FFFF_FFFF_FFFF
    ensures ParseRange(Some(Header(Decimal(k), [])), len) == Partial(k, len - 1)
  {
    DecimalReadsBack(k);
    NumeralShape(Decimal(k));
    HeaderOfNumerals(Decimal(k), [], len);
  }

  /** The body has the announced length and is a run of the file's bytes; an
      interrupted download resumed at any point reassembles the file. */
  lemma ResumeReassembles<T>(data: seq<T>, k: nat)
    requires 0 < k < |data| <= 0xFFFF_FFFF_FFFF_FFFF
    ensures var head := Serve(data, Some(Header(Decimal(0), Decimal(k - 1))));
            var tail := Serve(data, Some(Header(Decimal(k), [])));
            head.status == tail.status == 206 &&
            head.length == Some(|head.body|) && tail.length == Some(|tail.body|) &&
            head.body + tail.body == data
  {
    var first, second := Some(Header(Decimal(0), Decimal(k - 1))), Some(Header(Decimal(k), []));
    PrintedRangeParses(0, k - 1, |data|);
    OpenEndedParses(k, |data|);
    ServedPart(data, first);
    ServedPart(data, second);
    CutAt(data, k);
  }

  lemma CutAt<T>(data: seq<T>, k: nat)
    requires k <= |data|
    ensures data[0..k] + data[k..|data|] == data
  {
  }
}
