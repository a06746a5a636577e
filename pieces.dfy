/** Text that embeds formatted numbers. The program builds strings with
    `str(float)`, `f"{x}"` and `f"{x:.3f}"`; the model keeps each number as a
    value rather than fixing the digits a formatter would print. A text is a
    sequence of pieces, read as their concatenation. */
module Pieces {
  import opened Strings

  datatype Piece =
    | Lit(s: string)            // literal characters
    | Num(x: real)              // `str(x)` of a float
    | Fixed(x: real, places: nat) // `f"{x:.{places}f}"`

  type Text = seq<Piece>

  /** A text made of one literal string. */
  function Str(s: string): Text {
    [Lit(s)]
  }

  /** The numbers a text mentions, in order. */
  function Numbers(t: Text): (r: seq<real>)
    ensures |r| <= |t|
  {
    if t == [] then []
    else match t[0]
      case Lit(_) => Numbers(t[1..])
      case Num(x) => [x] + Numbers(t[1..])
      case Fixed(x, _) => [x] + Numbers(t[1..])
  }

  lemma {:induction false} NumbersAppend(a: Text, b: Text)
    ensures Numbers(a + b) == Numbers(a) + Numbers(b)
  {
    if a != [] {
      var t := a + b;
      assert t[0] == a[0];
      assert t[1..] == a[1..] + b;
      NumbersAppend(a[1..], b);
      match a[0]
      case Lit(_) =>
        assert Numbers(t) == Numbers(t[1..]);
        assert Numbers(a) == Numbers(a[1..]);
      case Num(x) =>
        assert Numbers(t) == [x] + Numbers(t[1..]);
        assert Numbers(a) == [x] + Numbers(a[1..]);
      case Fixed(x, _) =>
        assert Numbers(t) == [x] + Numbers(t[1..]);
        assert Numbers(a) == [x] + Numbers(a[1..]);
    } else {
      assert a + b == b;
    }
  }

  /** A text made only of literal pieces mentions no number. */
  lemma {:induction false} LiteralsHaveNoNumbers(t: Text)
    requires forall i :: 0 <= i < |t| ==> t[i].Lit?
    ensures Numbers(t) == []
  {
    if t != [] {
      assert forall i :: 0 <= i < |t[1..]| ==> t[1..][i] == t[i + 1];
      LiteralsHaveNoNumbers(t[1..]);
    }
  }

  /** `sep.join(str(x) for x in xs)`. */
  function JoinNums(xs: seq<real>, sep: string): (r: Text)
    ensures Numbers(r) == xs
  {
    if xs == [] then []
    else if |xs| == 1 then [Num(xs[0])]
    else
      var rest := JoinNums(xs[1..], sep);
      NumbersAppend([Num(xs[0]), Lit(sep)], rest);
      [Num(xs[0]), Lit(sep)] + rest
  }
}
