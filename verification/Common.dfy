/** Small vocabulary several components share. */
module Common {
  datatype Option<+T> = None | Some(value: T) {
    function GetOr(default: T): T {
      if Some? then value else default
    }
  }

  lemma {:induction false} SubsetSize<T>(a: set<T>, b: set<T>)
    requires a <= b
    ensures |a| <= |b|
  {
    if x :| x in a {
      SubsetSize(a - {x}, b - {x});
    }
  }

  // -------------------------------------------------------------- text order

  /** By first difference, a prefix first. */
  predicate TextLess(a: string, b: string) {
    b != [] && (a == [] || a[0] < b[0] || (a[0] == b[0] && TextLess(a[1..], b[1..])))
  }

  function Tail(a: string): (r: string)
    ensures a != [] ==> |r| < |a|
  {
    if a == [] then [] else a[1..]
  }

  lemma {:induction false} TextOrder(a: string, b: string, c: string)
    ensures !TextLess(a, a)
    ensures a != b ==> TextLess(a, b) != TextLess(b, a)
    ensures TextLess(a, b) && TextLess(b, c) ==> TextLess(a, c)
  {
    if a != [] || b != [] || c != [] {
      var a', b', c' := Tail(a), Tail(b), Tail(c);
      TextOrder(a', b', c');
      if a != [] && b != [] && a[0] == b[0] {
        assert a == [a[0]] + a' && b == [b[0]] + b';
      }
    }
  }
}
