/** What several modules share: optional values, the larger of two numbers, and
    how sets grow. */
module Common {

  datatype Option<+T> = None | Some(value: T)

  function Max(a: nat, b: nat): nat {
    if a > b then a else b
  }

  lemma SetSizes<T>(a: set<T>, x: T)
    ensures |a + {x}| == |a| + (if x in a then 0 else 1)
    ensures |a - {x}| == |a| - (if x in a then 1 else 0)
  {
    if x in a {
      assert a + {x} == a && a == (a - {x}) + {x};
    } else {
      assert a - {x} == a;
    }
  }
}
