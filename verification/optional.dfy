/** The optional value used wherever the source returns `None` or a value. */
module Optional {

  datatype Option<+T> = None | Some(value: T) {

    /** A lookup's result with a fallback: the value found, else `default`
        (the scanner's unknown-operator kind for a run the punctuation table
        lacks). */
    function GetOr(default: T): T {
      if Some? then value else default
    }
  }

  /** The first value present in `xs`: what a loop returning its first
      non-`None` result returns. */
  function FirstSome<T>(xs: seq<Option<T>>): (r: Option<T>)
    ensures r.Some? <==> exists i | 0 <= i < |xs| :: xs[i].Some?
    decreases |xs|
  {
    if |xs| == 0 then None
    else if xs[0].Some? then xs[0]
    else
      assert forall i | 1 <= i < |xs| :: xs[i] == xs[1..][i - 1];
      FirstSome(xs[1..])
  }

  /** The value found is at index `i`, and nothing before it holds one. */
  lemma {:induction false} FirstSomeIsFirst<T>(xs: seq<Option<T>>) returns (i: nat)
    requires FirstSome(xs).Some?
    ensures i < |xs| && FirstSome(xs) == xs[i]
    ensures forall j | 0 <= j < i :: xs[j].None?
    decreases |xs|
  {
    if xs[0].None? {
      var k := FirstSomeIsFirst(xs[1..]);
      i := k + 1;
      forall j | 0 <= j < i
        ensures xs[j].None?
      {
        if j > 0 {
          assert xs[j] == xs[1..][j - 1];
        }
      }
    } else {
      i := 0;
    }
  }
}
