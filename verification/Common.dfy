/** Small shared vocabulary: optional values, results, and two facts about finite sets. */
module Common {

  datatype Option<+T> = None | Some(value: T)

  datatype Result<+T, +E> = Ok(value: T) | Err(error: E)

  lemma SubsetIsNoLarger<T>(a: set<T>, b: set<T>)
    requires a <= b
    ensures |a| <= |b|
  {
    assert b == a + (b - a);
  }

  lemma ProperSubsetIsSmaller<T>(a: set<T>, b: set<T>)
    requires a < b
    ensures |a| < |b|
  {
    var x :| x in b && x !in a;
    SubsetIsNoLarger(a, b - {x});
  }

  /** Elements of `s` that satisfy `p`, in order. */
  function Filter<T(!new)>(s: seq<T>, p: T -> bool): (r: seq<T>)
    ensures forall x :: x in r <==> x in s && p(x)
  {
    if s == [] then []
    else if p(s[0]) then [s[0]] + Filter(s[1..], p)
    else Filter(s[1..], p)
  }

  function Flat<T>(pages: seq<seq<T>>): seq<T> { if pages == [] then [] else pages[0] + Flat(pages[1..]) }

  lemma {:induction false} FlatAppends<T>(pages: seq<seq<T>>, page: seq<T>)
    ensures Flat(pages + [page]) == Flat(pages) + page
  {
    if pages != [] {
      assert (pages + [page])[1..] == pages[1..] + [page];
      FlatAppends(pages[1..], page);
    }
  }

  /** A length no string of the set reaches. */
  lemma {:induction false} LongerThan(strings: set<string>) returns (n: nat)
    ensures forall s :: s in strings ==> |s| < n
    decreases strings
  {
    if strings == {} {
      n := 0;
    } else {
      var s :| s in strings;
      n := LongerThan(strings - {s});
      n := n + |s| + 1;
    }
  }
}
