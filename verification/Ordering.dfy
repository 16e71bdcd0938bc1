/** The code-point order on strings and the sorting of sets of strings. */
module Ordering {

  /** Strict lexicographic order, the order in which the program compares strings. */
  predicate Less(a: string, b: string) {
    b != [] && (a == [] || a[0] < b[0] || (a[0] == b[0] && Less(a[1..], b[1..])))
  }

  lemma {:induction false} LessTrichotomy(a: string, b: string)
    ensures Less(a, b) || a == b || Less(b, a)
    ensures !(Less(a, b) && (a == b || Less(b, a)))
  {
    if a != [] && b != [] {
      LessTrichotomy(a[1..], b[1..]);
      assert a == [a[0]] + a[1..] && b == [b[0]] + b[1..];
    }
  }

  lemma {:induction false} LessTransitive(a: string, b: string, c: string)
    requires Less(a, b) && Less(b, c)
    ensures Less(a, c)
  {
    if a != [] && a[0] == b[0] && b[0] == c[0] {
      LessTransitive(a[1..], b[1..], c[1..]);
    }
  }

  ghost predicate Ascending(s: seq<string>) {
    forall i, j :: 0 <= i < j < |s| ==> Less(s[i], s[j])
  }

  /** The smallest string of a nonempty set. */
  method Smallest(s: set<string>) returns (least: string)
    requires s != {}
    ensures least in s && forall x :: x in s && x != least ==> Less(least, x)
  {
    least :| least in s;
    var rest := s - {least};
    while rest != {}
      invariant rest <= s && least in s
      invariant forall x :: x in s - rest && x != least ==> Less(least, x)
    {
      var x :| x in rest;
      LessTrichotomy(x, least);
      if Less(x, least) {
        forall y | y in s - rest && y != least ensures Less(x, y) {
          LessTransitive(x, least, y);
        }
        least := x;
      }
      rest := rest - {x};
    }
  }

  /** `sorted` applied to a set: its elements, each once, in ascending order. */
  method Sorted(s: set<string>) returns (r: seq<string>)
    ensures Ascending(r)
    ensures forall x :: x in r <==> x in s
  {
    r := [];
    var rest := s;
    while rest != {}
      invariant rest <= s
      invariant Ascending(r)
      invariant forall x :: x in r <==> x in s - rest
      invariant forall x, y :: x in r && y in rest ==> Less(x, y)
    {
      var x := Smallest(rest);
      r := r + [x];
      rest := rest - {x};
    }
  }
}
