/**
 * The pricing engine: the total of an order from its selected products and
 * menus, with each entity's promotions applied as cascading percentage
 * discounts (a product's own discounts first, then its menu's).
 * Prices are exact reals.
 */
module Pricing {

  /** A product: its list price and the values of its linked promotions. */
  datatype Product = Product(price: real, promotions: seq<real>)

  /** A menu: the products attached to it and the values of its linked promotions. */
  datatype Menu = Menu(productIds: seq<nat>, promotions: seq<real>)

  /** The Product and Menu tables with their promotion and product links. */
  datatype Catalogue = Catalogue(products: map<nat, Product>, menus: map<nat, Menu>)

  /** The factor of one promotion of `value` percent: 42 gives 0.58. */
  function Discount(value: real): (d: real)
    ensures 0.0 <= d <= 1.0 <==> 0.0 <= value <= 100.0
    ensures value == 0.0 <==> d == 1.0
  {
    1.0 - value / 100.0
  }

  /** The factor of all of an entity's promotions, applied one after another; none gives 1. */
  function Factor(values: seq<real>): real
  {
    if values == [] then 1.0 else Discount(values[0]) * Factor(values[1..])
  }

  /** A selected product's contribution: its price after its own discounts; an unknown id contributes 0. */
  function ProductPrice(c: Catalogue, pid: nat): real
  {
    if pid in c.products then c.products[pid].price * Factor(c.products[pid].promotions) else 0.0
  }

  function ProductsTotal(c: Catalogue, pids: seq<nat>): real
  {
    if pids == [] then 0.0 else ProductPrice(c, pids[0]) + ProductsTotal(c, pids[1..])
  }

  /** The products of a menu whose own factor is `menuFactor`: each discounted as a product, then by the menu. */
  function InMenu(c: Catalogue, pids: seq<nat>, menuFactor: real): real
  {
    if pids == [] then 0.0 else ProductPrice(c, pids[0]) * menuFactor + InMenu(c, pids[1..], menuFactor)
  }

  /** A selected menu's contribution; an unknown id contributes 0. */
  function MenuPrice(c: Catalogue, mid: nat): real
  {
    if mid in c.menus then InMenu(c, c.menus[mid].productIds, Factor(c.menus[mid].promotions)) else 0.0
  }

  function MenusTotal(c: Catalogue, mids: seq<nat>): real
  {
    if mids == [] then 0.0 else MenuPrice(c, mids[0]) + MenusTotal(c, mids[1..])
  }

  /** The price of an order selecting products `pids` and menus `mids`. */
  function OrderPrice(c: Catalogue, pids: seq<nat>, mids: seq<nat>): real
  {
    ProductsTotal(c, pids) + MenusTotal(c, mids)
  }

  /** Prices are non-negative and promotion values lie in the nominal range 0..100. */
  ghost predicate Nominal(c: Catalogue)
  {
    && (forall pid :: pid in c.products ==> c.products[pid].price >= 0.0 && InRange(c.products[pid].promotions))
    && (forall mid :: mid in c.menus ==> InRange(c.menus[mid].promotions))
  }

  ghost predicate InRange(values: seq<real>)
  {
    forall i :: 0 <= i < |values| ==> 0.0 <= values[i] <= 100.0
  }

  /** Linking promotions one list after another multiplies their factors. */
  lemma {:induction false} FactorConcat(a: seq<real>, b: seq<real>)
    ensures Factor(a + b) == Factor(a) * Factor(b)
  {
    if a == [] {
      assert a + b == b;
    } else {
      assert (a + b)[1..] == a[1..] + b;
      FactorConcat(a[1..], b);
    }
  }

  /** Nominal promotions never raise a price and never make it negative. */
  lemma {:induction false} FactorWithinUnit(values: seq<real>)
    requires InRange(values)
    ensures 0.0 <= Factor(values) <= 1.0
  {
    if values != [] {
      assert InRange(values[1..]) by {
        forall i | 0 <= i < |values[1..]| ensures 0.0 <= values[1..][i] <= 100.0 {
          assert values[1..][i] == values[i + 1];
        }
      }
      FactorWithinUnit(values[1..]);
      var d, f := Discount(values[0]), Factor(values[1..]);
      assert Factor(values) == d * f;
      assert 0.0 <= d <= 1.0;
      assert 0.0 <= d * f <= d by {
        assert d * f <= d * 1.0;
      }
    }
  }

  /** A promotion above 100 percent is not clamped: its factor is negative. */
  lemma DiscountAboveHundredIsNegative(v: real)
    requires v > 100.0
    ensures Factor([v]) < 0.0
  {
    assert Factor([v]) == Discount(v) * Factor([]);
  }

  /** A menu's factor can be applied to its products' discounted total: the cascade is multiplicative. */
  lemma {:induction false} MenuFactorDistributes(c: Catalogue, pids: seq<nat>, f: real)
    ensures InMenu(c, pids, f) == f * ProductsTotal(c, pids)
  {
    if pids != [] {
      MenuFactorDistributes(c, pids[1..], f);
    }
  }

  lemma {:induction false} ProductsTotalConcat(c: Catalogue, a: seq<nat>, b: seq<nat>)
    ensures ProductsTotal(c, a + b) == ProductsTotal(c, a) + ProductsTotal(c, b)
  {
    if a == [] {
      assert a + b == b;
    } else {
      assert (a + b)[1..] == a[1..] + b;
      ProductsTotalConcat(c, a[1..], b);
    }
  }

  lemma {:induction false} MenusTotalConcat(c: Catalogue, a: seq<nat>, b: seq<nat>)
    ensures MenusTotal(c, a + b) == MenusTotal(c, a) + MenusTotal(c, b)
  {
    if a == [] {
      assert a + b == b;
    } else {
      assert (a + b)[1..] == a[1..] + b;
      MenusTotalConcat(c, a[1..], b);
    }
  }

  /** Splitting a selection in two splits its price in two. */
  lemma OrderPriceSplits(c: Catalogue, p1: seq<nat>, p2: seq<nat>, m1: seq<nat>, m2: seq<nat>)
    ensures OrderPrice(c, p1 + p2, m1 + m2) == OrderPrice(c, p1, m1) + OrderPrice(c, p2, m2)
  {
    ProductsTotalConcat(c, p1, p2);
    MenusTotalConcat(c, m1, m2);
  }

  /** Taking one occurrence out of a selection leaves the remaining multiset of ids. */
  lemma RemoveOne(p: seq<nat>, q: seq<nat>, i: nat)
    requires multiset(p) == multiset(q) && p != [] && i < |q| && q[i] == p[0]
    ensures multiset(p[1..]) == multiset(q[..i] + q[i + 1..])
  {
    var x := p[0];
    assert p == [x] + p[1..];
    assert q == q[..i] + [x] + q[i + 1..];
    var a, b := multiset(q[..i]), multiset(q[i + 1..]);
    assert multiset(q[..i] + q[i + 1..]) == a + b;
    assert multiset(q) == a + multiset{x} + b;
    assert multiset(p) == multiset{x} + multiset(p[1..]);
    assert multiset(p[1..]) == multiset(p) - multiset{x};
    assert (a + multiset{x} + b) - multiset{x} == a + b;
  }

  lemma ProductsTotalWithout(c: Catalogue, q: seq<nat>, i: nat)
    requires i < |q|
    ensures ProductsTotal(c, q) == ProductPrice(c, q[i]) + ProductsTotal(c, q[..i] + q[i + 1..])
  {
    assert q == q[..i] + q[i..];
    assert q[i..][1..] == q[i + 1..];
    ProductsTotalConcat(c, q[..i], q[i..]);
    ProductsTotalConcat(c, q[..i], q[i + 1..]);
  }

  lemma MenusTotalWithout(c: Catalogue, q: seq<nat>, i: nat)
    requires i < |q|
    ensures MenusTotal(c, q) == MenuPrice(c, q[i]) + MenusTotal(c, q[..i] + q[i + 1..])
  {
    assert q == q[..i] + q[i..];
    assert q[i..][1..] == q[i + 1..];
    MenusTotalConcat(c, q[..i], q[i..]);
    MenusTotalConcat(c, q[..i], q[i + 1..]);
  }

  /** The products' total depends only on which products are selected how often, not on their order. */
  lemma {:induction false} ProductsTotalPermutation(c: Catalogue, p: seq<nat>, q: seq<nat>)
    requires multiset(p) == multiset(q)
    ensures ProductsTotal(c, p) == ProductsTotal(c, q)
    decreases |p|
  {
    if p == [] {
      assert |q| == |multiset(q)| == 0;
    } else {
      assert p[0] in multiset(q);
      var i :| 0 <= i < |q| && q[i] == p[0];
      RemoveOne(p, q, i);
      ProductsTotalPermutation(c, p[1..], q[..i] + q[i + 1..]);
      ProductsTotalWithout(c, q, i);
    }
  }

  /** Likewise for menus. */
  lemma {:induction false} MenusTotalPermutation(c: Catalogue, p: seq<nat>, q: seq<nat>)
    requires multiset(p) == multiset(q)
    ensures MenusTotal(c, p) == MenusTotal(c, q)
    decreases |p|
  {
    if p == [] {
      assert |q| == |multiset(q)| == 0;
    } else {
      assert p[0] in multiset(q);
      var i :| 0 <= i < |q| && q[i] == p[0];
      RemoveOne(p, q, i);
      MenusTotalPermutation(c, p[1..], q[..i] + q[i + 1..]);
      MenusTotalWithout(c, q, i);
    }
  }

  /** Reordering the selected product or menu ids leaves the order's price unchanged. */
  lemma OrderPriceIgnoresOrder(c: Catalogue, p: seq<nat>, p': seq<nat>, m: seq<nat>, m': seq<nat>)
    requires multiset(p) == multiset(p') && multiset(m) == multiset(m')
    ensures OrderPrice(c, p, m) == OrderPrice(c, p', m')
  {
    ProductsTotalPermutation(c, p, p');
    MenusTotalPermutation(c, m, m');
  }

  /** With nominal prices and promotions an order never costs less than nothing. */
  lemma {:induction false} ProductsTotalNonNegative(c: Catalogue, pids: seq<nat>)
    requires Nominal(c)
    ensures ProductsTotal(c, pids) >= 0.0
  {
    if pids != [] {
      var pid := pids[0];
      if pid in c.products {
        var p, f := c.products[pid].price, Factor(c.products[pid].promotions);
        FactorWithinUnit(c.products[pid].promotions);
        assert ProductPrice(c, pid) == p * f;
        assert p * f >= 0.0;
      }
      ProductsTotalNonNegative(c, pids[1..]);
    }
  }

  lemma {:induction false} MenusTotalNonNegative(c: Catalogue, mids: seq<nat>)
    requires Nominal(c)
    ensures MenusTotal(c, mids) >= 0.0
  {
    if mids != [] {
      var mid := mids[0];
      if mid in c.menus {
        var m := c.menus[mid];
        FactorWithinUnit(m.promotions);
        var f, t := Factor(m.promotions), ProductsTotal(c, m.productIds);
        MenuFactorDistributes(c, m.productIds, f);
        ProductsTotalNonNegative(c, m.productIds);
        assert MenuPrice(c, mid) == f * t;
        assert f * t >= 0.0;
      }
      MenusTotalNonNegative(c, mids[1..]);
    }
  }

  lemma OrderPriceNonNegative(c: Catalogue, pids: seq<nat>, mids: seq<nat>)
    requires Nominal(c)
    ensures OrderPrice(c, pids, mids) >= 0.0
  {
    ProductsTotalNonNegative(c, pids);
    MenusTotalNonNegative(c, mids);
  }

  /** An order that selects nothing costs 0. */
  lemma EmptySelectionIsFree(c: Catalogue)
    ensures OrderPrice(c, [], []) == 0.0
  {
  }

  /** A product without promotions costs its list price. */
  lemma UnpromotedProductAtListPrice(c: Catalogue, pid: nat)
    requires pid in c.products && c.products[pid].promotions == []
    ensures OrderPrice(c, [pid], []) == c.products[pid].price
  {
    assert ProductsTotal(c, [pid]) == ProductPrice(c, pid) + ProductsTotal(c, []);
  }

  /** A product with one promotion of value `v` costs its price times (1 - v/100). */
  lemma LonePromotedProduct(c: Catalogue, pid: nat, v: real)
    requires pid in c.products && c.products[pid].promotions == [v]
    ensures OrderPrice(c, [pid], []) == c.products[pid].price * (1.0 - v / 100.0)
  {
    assert Factor([v]) == Discount(v) * Factor([]);
    assert ProductsTotal(c, [pid]) == ProductPrice(c, pid) + ProductsTotal(c, []);
  }

  /** A promoted menu holding one promoted product: product discount first, then the menu's. */
  lemma PromotedMenuOfPromotedProduct(c: Catalogue, mid: nat, pid: nat, vp: real, vm: real)
    requires pid in c.products && c.products[pid].promotions == [vp]
    requires mid in c.menus && c.menus[mid] == Menu([pid], [vm])
    ensures OrderPrice(c, [], [mid]) == c.products[pid].price * (1.0 - vp / 100.0) * (1.0 - vm / 100.0)
  {
    assert Factor([vp]) == Discount(vp) * Factor([]);
    assert Factor([vm]) == Discount(vm) * Factor([]);
    assert InMenu(c, [pid], Factor([vm])) == ProductPrice(c, pid) * Factor([vm]) + InMenu(c, [], Factor([vm]));
    assert MenusTotal(c, [mid]) == MenuPrice(c, mid) + MenusTotal(c, []);
  }

  /** The order suite's fixture: a product priced 10 and a menu holding it, each with a 42 percent promotion. */
  function Fixture(pid: nat, mid: nat): Catalogue
  {
    Catalogue(map[pid := Product(10.0, [42.0])], map[mid := Menu([pid], [42.0])])
  }

  /** Ordering that product and that menu together costs 10 * 0.58 + 10 * 0.58 * 0.58. */
  lemma FixturePrice(pid: nat, mid: nat)
    ensures OrderPrice(Fixture(pid, mid), [pid], [mid]) == 10.0 * 0.58 + 10.0 * 0.58 * 0.58
  {
    var c := Fixture(pid, mid);
    LonePromotedProduct(c, pid, 42.0);
    PromotedMenuOfPromotedProduct(c, mid, pid, 42.0, 42.0);
    OrderPriceSplits(c, [pid], [], [], [mid]);
  }
}
