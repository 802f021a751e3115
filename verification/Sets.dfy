/** Facts about finite sets that several modules share. */
module Sets {

  lemma Any<T>(s: set<T>) returns (x: T)
    requires s != {}
    ensures x in s
  {
    x :| x in s;
  }

  method Pick<T(==)>(s: set<T>) returns (x: T)
    requires s != {}
    ensures x in s
  {
    x :| x in s;
  }

  /** Python's min over a non-empty set of ids. */
  method Minimum(ids: set<int>) returns (m: int)
    requires ids != {}
    ensures m in ids && forall x :: x in ids ==> m <= x
    ensures m == Least(ids)
  {
    m := Pick(ids);
    var rest := ids - {m};
    while rest != {}
      invariant rest <= ids && m in ids && m !in rest
      invariant forall x :: x in ids && x !in rest ==> m <= x
      decreases rest
    {
      var x := Pick(rest);
      rest := rest - {x};
      if x < m {
        m := x;
      }
    }
  }

  lemma SubsetSize<T>(a: set<T>, b: set<T>)
    requires a <= b
    ensures |a| <= |b|
    ensures |a| == |b| ==> a == b
    decreases a
  {
    if a != {} {
      var x :| x in a;
      SubsetSize(a - {x}, b - {x});
      assert |a| == |b| ==> a - {x} + {x} == b - {x} + {x};
    } else if b != {} {
      var y :| y in b;
    }
  }

  lemma {:induction false} FindLeast(ids: set<int>) returns (m: int)
    requires ids != {}
    ensures m in ids && forall x :: x in ids ==> m <= x
    decreases |ids|
  {
    m := Any(ids);
    var others := ids - {m};
    if others != {} {
      var least := FindLeast(others);
      assert forall x :: x in ids ==> x == m || x in others;
      m := if least < m then least else m;
    }
  }

  ghost function Least(ids: set<int>): (m: int)
    requires ids != {}
    ensures m in ids && forall x :: x in ids ==> m <= x
  {
    assert exists m :: m in ids && forall x :: x in ids ==> m <= x by {
      var m := FindLeast(ids);
    }
    var m :| m in ids && forall x :: x in ids ==> m <= x;
    m
  }
}
