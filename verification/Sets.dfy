/** Small facts about finite sets. */
module Sets {
  lemma SomeElement<T>(s: set<T>) returns (x: T)
    requires s != {}
    ensures x in s
  {
    x :| x in s;
  }

  ghost function Sum<T>(f: T -> nat, s: set<T>): nat {
    if s == {} then 0 else var x :| x in s; f(x) + Sum(f, s - {x})
  }

  lemma {:induction false} SumRemove<T>(f: T -> nat, s: set<T>, x: T)
    requires x in s
    ensures Sum(f, s) == f(x) + Sum(f, s - {x})
    decreases |s|
  {
    var y :| y in s && Sum(f, s) == f(y) + Sum(f, s - {y});
    if y != x {
      SumRemove(f, s - {y}, x);
      SumRemove(f, s - {x}, y);
      assert s - {y} - {x} == s - {x} - {y};
    }
  }

  lemma SumEmpty<T>(f: T -> nat, s: set<T>)
    requires s == {}
    ensures Sum(f, s) == 0
  {}

  lemma SumInsert<T>(f: T -> nat, s: set<T>, x: T)
    requires x !in s
    ensures Sum(f, s + {x}) == f(x) + Sum(f, s)
  {
    SumRemove(f, s + {x}, x);
    assert s + {x} - {x} == s;
  }

  lemma {:induction false} SumUnion<T>(f: T -> nat, a: set<T>, b: set<T>)
    requires a !! b
    ensures Sum(f, a + b) == Sum(f, a) + Sum(f, b)
    decreases |b|
  {
    hide Sum;
    if b == {} {
      assert a + b == a;
      SumEmpty(f, b);
    } else {
      var x :| x in b;
      SumRemove(f, b, x);
      SumUnion(f, a, b - {x});
      SumInsert(f, a + (b - {x}), x);
      assert a + b == a + (b - {x}) + {x};
    }
  }

  lemma SumSubset<T>(f: T -> nat, a: set<T>, b: set<T>)
    requires a <= b
    ensures Sum(f, a) <= Sum(f, b)
  {
    SumUnion(f, a, b - a);
    assert a + (b - a) == b;
  }

  lemma {:induction false} SumScaled<T>(f: T -> nat, g: T -> nat, k: nat, s: set<T>)
    requires forall x :: x in s ==> f(x) <= k * g(x)
    ensures Sum(f, s) <= k * Sum(g, s)
    decreases |s|
  {
    hide Sum;
    if s == {} {
      SumEmpty(f, s);
      SumEmpty(g, s);
    } else {
      var x :| x in s;
      SumRemove(f, s, x);
      SumRemove(g, s, x);
      SumScaled(f, g, k, s - {x});
      assert k * (g(x) + Sum(g, s - {x})) == k * g(x) + k * Sum(g, s - {x});
    }
  }

  lemma {:induction false} SubsetSize<T>(a: set<T>, b: set<T>)
    requires a <= b
    ensures |a| <= |b|
    decreases |a|
  {
    if a != {} {
      var x := SomeElement(a);
      SubsetSize(a - {x}, b - {x});
    }
  }
}
