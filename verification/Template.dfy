/** Format strings with holes, and reading their output back. */
module Template {
  import opened Wrappers
  import opened Text

  /** A literal, or a hole whose value runs up to the first `stop`. */
  datatype Piece = Lit(text: string) | Hole(stop: char)

  type Shape = seq<Piece>

  function Holes(shape: Shape): nat {
    if shape == [] then 0 else (if shape[0].Hole? then 1 else 0) + Holes(shape[1..])
  }

  /** The formatted text. */
  function Fill(shape: Shape, values: seq<string>): string
    requires |values| == Holes(shape)
  {
    if shape == [] then []
    else if shape[0].Lit? then shape[0].text + Fill(shape[1..], values)
    else values[0] + Fill(shape[1..], values[1..])
  }

  /** The text before the first `stop`, and the rest from it on. */
  function Until(text: string, stop: char): (r: (string, string))
    ensures r.0 + r.1 == text && stop !in r.0 && (r.1 != [] ==> r.1[0] == stop)
  {
    if text == [] || text[0] == stop then ([], text)
    else
      var (a, b) := Until(text[1..], stop);
      ([text[0]] + a, b)
  }

  /** Reads the holes of a shape off the front of a text. */
  function Scan(shape: Shape, text: string): (r: Option<(seq<string>, string)>)
    ensures r.Some? ==> |r.value.0| == Holes(shape) && |r.value.1| <= |text|
  {
    if shape == [] then Some(([], text))
    else if shape[0].Lit? then
      var lit := shape[0].text;
      if |lit| <= |text| && text[..|lit|] == lit then Scan(shape[1..], text[|lit|..]) else None
    else
      var (v, rest) := Until(text, shape[0].stop);
      var r := Scan(shape[1..], rest);
      if r.None? then None else Some(([v] + r.value.0, r.value.1))
  }

  /** No value contains the character its hole stops at. */
  predicate Clean(shape: Shape, values: seq<string>)
    requires |values| == Holes(shape)
  {
    shape == [] ||
    if shape[0].Lit? then Clean(shape[1..], values)
    else shape[0].stop !in values[0] && Clean(shape[1..], values[1..])
  }

  /** Every hole is followed by a literal that begins with its stop character. */
  predicate Delimited(shape: Shape) {
    forall i :: 0 <= i < |shape| && shape[i].Hole? ==>
      i + 1 < |shape| && shape[i + 1].Lit? && shape[i + 1].text != [] && shape[i + 1].text[0] == shape[i].stop
  }

  lemma {:induction false} UntilStops(v: string, stop: char, rest: string)
    requires stop !in v && rest != [] && rest[0] == stop
    ensures Until(v + rest, stop) == (v, rest)
  {
    if v == [] {
      assert v + rest == rest;
    } else {
      UntilStops(v[1..], stop, rest);
      assert (v + rest)[1..] == v[1..] + rest;
      assert v == [v[0]] + v[1..];
    }
  }

  /** Scanning undoes filling, whatever follows. */
  lemma {:induction false} ScanUndoesFill(shape: Shape, values: seq<string>, rest: string)
    requires |values| == Holes(shape) && Delimited(shape) && Clean(shape, values)
    ensures Scan(shape, Fill(shape, values) + rest) == Some((values, rest))
    decreases |shape|
  {
    if shape == [] {
      assert Fill(shape, values) + rest == rest;
    } else {
      var tail := shape[1..];
      assert Delimited(tail) by {
        forall i | 0 <= i < |tail| && tail[i].Hole?
          ensures i + 1 < |tail| && tail[i + 1].Lit? && tail[i + 1].text != [] && tail[i + 1].text[0] == tail[i].stop
        {
          assert shape[i + 1] == tail[i] && shape[i + 2] == tail[i + 1];
        }
      }
      if shape[0].Lit? {
        var lit, more := shape[0].text, Fill(tail, values) + rest;
        ScanUndoesFill(tail, values, rest);
        ConcatAssoc(lit, Fill(tail, values), rest);
        assert (lit + more)[..|lit|] == lit && (lit + more)[|lit|..] == more;
      } else {
        var v, more := values[0], Fill(tail, values[1..]) + rest;
        ScanUndoesFill(tail, values[1..], rest);
        ConcatAssoc(v, Fill(tail, values[1..]), rest);
        assert tail[0] == shape[1] && tail[0].text != [];
        assert more[0] == tail[0].text[0];
        UntilStops(v, shape[0].stop, more);
        assert [v] + values[1..] == values;
      }
    }
  }

  /** The stop characters of a shape's holes, in order. */
  function HoleStops(shape: Shape): (r: seq<char>)
    ensures |r| == Holes(shape)
  {
    if shape == [] then []
    else (if shape[0].Hole? then [shape[0].stop] else []) + HoleStops(shape[1..])
  }

  lemma {:induction false} CleanByStops(shape: Shape, values: seq<string>)
    requires |values| == Holes(shape)
    ensures Clean(shape, values) <==> forall i :: 0 <= i < |values| ==> HoleStops(shape)[i] !in values[i]
    decreases |shape|
  {
    if shape != [] {
      if shape[0].Lit? {
        CleanByStops(shape[1..], values);
        assert HoleStops(shape) == HoleStops(shape[1..]);
      } else {
        var stops, rest := HoleStops(shape), values[1..];
        CleanByStops(shape[1..], rest);
        assert stops[1..] == HoleStops(shape[1..]);
        assert forall i :: 0 <= i < |rest| ==> rest[i] == values[i + 1] && HoleStops(shape[1..])[i] == stops[i + 1];
        if forall i :: 0 <= i < |rest| ==> HoleStops(shape[1..])[i] !in rest[i] {
          forall i | 1 <= i < |values|
            ensures stops[i] !in values[i]
          {
            assert HoleStops(shape[1..])[i - 1] !in rest[i - 1];
          }
        }
      }
    }
  }
}
