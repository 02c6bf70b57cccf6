/** The order Go compares strings in, and the sorted list of a set of strings. Comparing by
    code point is comparing by UTF-8 byte. */
module Orders {

  predicate Less(a: string, b: string) {
    if b == "" then false
    else if a == "" then true
    else a[0] < b[0] || (a[0] == b[0] && Less(a[1..], b[1..]))
  }

  lemma {:induction false} LessTransitive(a: string, b: string, c: string)
    requires Less(a, b) && Less(b, c)
    ensures Less(a, c)
  {
    if a != "" && a[0] == b[0] == c[0] {
      LessTransitive(a[1..], b[1..], c[1..]);
    }
  }

  lemma {:induction false} LessTotal(a: string, b: string)
    ensures Less(a, b) || a == b || Less(b, a)
  {
    if a != "" && b != "" && a[0] == b[0] {
      LessTotal(a[1..], b[1..]);
      assert a == [a[0]] + a[1..] && b == [b[0]] + b[1..];
    }
  }

  lemma {:induction false} LessAsymmetric(a: string, b: string)
    requires Less(a, b)
    ensures !Less(b, a) && a != b
  {
    if a != "" && a[0] == b[0] {
      LessAsymmetric(a[1..], b[1..]);
    }
  }

  predicate StrictlySorted(xs: seq<string>) {
    forall i, j :: 0 <= i < j < |xs| ==> Less(xs[i], xs[j])
  }

  function Elements(xs: seq<string>): set<string> {
    set x | x in xs
  }

  /** Sort by insertion into an already sorted list. */
  function Insert(x: string, xs: seq<string>): (r: seq<string>)
    requires StrictlySorted(xs) && x !in xs
    ensures StrictlySorted(r) && Elements(r) == Elements(xs) + {x} && |r| == |xs| + 1
  {
    if xs == [] then [x]
    else if Less(x, xs[0]) then
      assert forall i :: 0 <= i < |xs| ==> Less(x, xs[i]) by {
        forall i | 0 < i < |xs| ensures Less(x, xs[i]) { LessTransitive(x, xs[0], xs[i]); }
      }
      [x] + xs
    else
      LessTotal(x, xs[0]);
      var rest := Insert(x, xs[1..]);
      assert forall i :: 0 <= i < |rest| ==> Less(xs[0], rest[i]) by {
        forall i | 0 <= i < |rest| ensures Less(xs[0], rest[i]) { assert rest[i] in Elements(rest); }
      }
      assert Elements(xs) == Elements(xs[1..]) + {xs[0]};
      assert Elements([xs[0]] + rest) == Elements(rest) + {xs[0]};
      [xs[0]] + rest
  }

  ghost function Sorted(s: set<string>): (r: seq<string>)
    ensures StrictlySorted(r) && Elements(r) == s && |r| == |s|
  {
    if s == {} then []
    else
      var x :| x in s;
      var rest := Sorted(s - {x});
      assert x !in Elements(rest);
      Insert(x, rest)
  }

  lemma NoElements(xs: seq<string>)
    ensures Elements(xs) == {} <==> xs == []
  {
    assert xs != [] ==> xs[0] in Elements(xs);
  }

  /** A set has one strictly sorted listing. */
  lemma {:induction false} SortedUnique(xs: seq<string>, ys: seq<string>)
    requires StrictlySorted(xs) && StrictlySorted(ys) && Elements(xs) == Elements(ys)
    ensures xs == ys
  {
    NoElements(xs);
    NoElements(ys);
    if xs != [] {
      assert xs[0] in Elements(ys) && ys[0] in Elements(xs);
      var i :| 0 <= i < |ys| && ys[i] == xs[0];
      var j :| 0 <= j < |xs| && xs[j] == ys[0];
      if i > 0 && j > 0 {
        LessAsymmetric(xs[0], xs[j]);
      }
      forall z
        ensures z in Elements(xs[1..]) <==> z in Elements(ys[1..])
      {
        HeadIsFresh(xs);
        HeadIsFresh(ys);
        assert z in Elements(xs) <==> z == xs[0] || z in Elements(xs[1..]);
        assert z in Elements(ys) <==> z == ys[0] || z in Elements(ys[1..]);
      }
      SortedUnique(xs[1..], ys[1..]);
      assert xs == [xs[0]] + xs[1..] && ys == [ys[0]] + ys[1..];
    }
  }

  lemma HeadIsFresh(xs: seq<string>)
    requires StrictlySorted(xs) && xs != []
    ensures xs[0] !in Elements(xs[1..])
  {
    if xs[0] in Elements(xs[1..]) {
      var i :| 0 < i < |xs| && xs[i] == xs[0];
      LessAsymmetric(xs[0], xs[i]);
    }
  }

  /** sort.Strings on the keys of a map, gathered in whatever order the map iteration gives. */
  method SortKeys(keys: set<string>) returns (xs: seq<string>)
    ensures xs == Sorted(keys)
  {
    xs := [];
    var todo := keys;
    while todo != {}
      invariant todo <= keys
      invariant StrictlySorted(xs) && Elements(xs) == keys - todo
    {
      var x :| x in todo;
      assert x !in Elements(xs);
      xs := Insert(x, xs);
      todo := todo - {x};
    }
    SortedUnique(xs, Sorted(keys));
  }

  /** The elements before position i are those that compare less. */
  lemma LessThanAt(xs: seq<string>, i: nat)
    requires StrictlySorted(xs) && i < |xs|
    ensures (set x | x in xs && Less(x, xs[i])) == Elements(xs[..i])
  {
    forall x | x in xs && Less(x, xs[i]) ensures x in xs[..i] {
      var j :| 0 <= j < |xs| && xs[j] == x;
      if j >= i {
        LessAsymmetric(x, xs[i]);
      }
    }
  }

  lemma {:induction false} SortedSize(xs: seq<string>)
    requires StrictlySorted(xs)
    ensures |Elements(xs)| == |xs|
  {
    if xs != [] {
      HeadIsFresh(xs);
      SortedSize(xs[1..]);
      assert Elements(xs) == Elements(xs[1..]) + {xs[0]};
    }
  }
}
