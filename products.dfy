/**
 * The joint density of a record: the product of its per-column densities,
 * and the algebra that shows it does not depend on the column order.
 */
module Products {

  /** `np.product` of one row: the joint density of a record. */
  function Product(s: seq<real>): real {
    if s == [] then 1.0 else s[0] * Product(s[1..])
  }

  /**
   * Densities are never negative, so neither is a joint density; and one
   * column of zero density makes the joint density of its record zero.
   */
  lemma {:induction false} ProductSign(s: seq<real>)
    ensures (forall i :: 0 <= i < |s| ==> 0.0 <= s[i]) ==> 0.0 <= Product(s)
    ensures (exists i :: 0 <= i < |s| && s[i] == 0.0) ==> Product(s) == 0.0
  {
    if s != [] {
      ProductSign(s[1..]);
      assert forall i :: 1 <= i < |s| ==> s[1..][i - 1] == s[i];
    }
  }

  /**
   * The joint density does not depend on the order of the columns: two rows
   * holding the same densities in another order have the same product.
   */
  lemma {:induction false} ProductReorder(s: seq<real>, t: seq<real>)
    requires multiset(s) == multiset(t)
    ensures Product(s) == Product(t)
  {
    if s != [] {
      var j, rest := RemoveOne(s, t);
      ProductReorder(s[1..], rest);
      ProductRemove(t, j);
    }
  }

  /** The product of a row is any one of its entries times the product of the others. */
  lemma {:induction false} ProductRemove(t: seq<real>, j: nat)
    requires j < |t|
    ensures Product(t) == t[j] * Product(t[..j] + t[j + 1..])
  {
    assert t == t[..j] + [t[j]] + t[j + 1..];
    ProductMiddle(t[..j], t[j], t[j + 1..]);
  }

  /** Taking one entry `x` out of the middle of a row divides it out of the product. */
  lemma {:induction false} ProductMiddle(a: seq<real>, x: real, b: seq<real>)
    ensures Product(a + [x] + b) == x * Product(a + b)
  {
    if a == [] {
      assert a + [x] + b == [x] + b && a + b == b;
      ProductCons(x, b);
    } else {
      ProductMiddle(a[1..], x, b);
      ProductMiddleStep(a, x, b);
    }
  }

  /** The inductive step of `ProductMiddle`: one more entry in front of `x`. */
  lemma {:induction false} ProductMiddleStep(a: seq<real>, x: real, b: seq<real>)
    requires a != []
    requires Product(a[1..] + [x] + b) == x * Product(a[1..] + b)
    ensures Product(a + [x] + b) == x * Product(a + b)
  {
    assert a + [x] + b == [a[0]] + (a[1..] + [x] + b);
    assert a + b == [a[0]] + (a[1..] + b);
    ProductCons(a[0], a[1..] + [x] + b);
    ProductCons(a[0], a[1..] + b);
    Swap(Product(a + [x] + b), a[0], Product(a[1..] + [x] + b), x, Product(a[1..] + b), Product(a + b));
  }

  /** One step of the product's definition, for a row given as head and tail. */
  lemma {:induction false} ProductCons(x: real, s: seq<real>)
    ensures Product([x] + s) == x * Product(s)
  {
    assert ([x] + s)[1..] == s;
  }

  /** The arithmetic step of `ProductMiddle`, on the products as plain numbers. */
  lemma Swap(whole: real, y: real, inner: real, x: real, rest: real, target: real)
    requires whole == y * inner && inner == x * rest && target == y * rest
    ensures whole == x * target
  {
  }

  /** Removing the first element of `s` from `t`, when both hold the same elements. */
  lemma {:induction false} RemoveOne<T>(s: seq<T>, t: seq<T>) returns (j: nat, rest: seq<T>)
    requires s != [] && multiset(s) == multiset(t)
    ensures j < |t| && t[j] == s[0]
    ensures t == t[..j] + [s[0]] + t[j + 1..]
    ensures rest == t[..j] + t[j + 1..]
    ensures multiset(s[1..]) == multiset(rest)
  {
    var x := s[0];
    assert x in multiset(t);
    j :| 0 <= j < |t| && t[j] == x;
    rest := t[..j] + t[j + 1..];
    assert t == t[..j] + [x] + t[j + 1..];
    assert s == [x] + s[1..];
    assert multiset(t) == multiset(t[..j]) + multiset{x} + multiset(t[j + 1..]);
    assert multiset(rest) == multiset(t[..j]) + multiset(t[j + 1..]);
    assert multiset(s[1..]) == multiset(s) - multiset{x};
  }
}
