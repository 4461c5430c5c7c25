/**
 * The decentralised exchange: one order book per token, with a buy side
 * kept in non-increasing price order and a sell side in non-decreasing
 * price order (each re-sorted stably after every placement), and a
 * matching loop that crosses the best buy with the best sell while their
 * prices overlap. `execute_trade` only reports the trade, so it is
 * modelled as an entry in a returned trade log.
 */
module Dex {
  /** `{"user": ..., "amount": ..., "price": ...}`. */
  datatype Order = Order(user: string, amount: real, price: real)

  datatype Side = BuySide | SellSide

  /** `{"buy": [...], "sell": [...]}`. */
  datatype Book = Book(buy: seq<Order>, sell: seq<Order>)

  /** The order books by token id. */
  type Exchange = map<string, Book>

  /** One `execute_trade(token_id, buyer, seller, amount, price)` call. */
  datatype Trade = Trade(token: string, buyer: string, seller: string, amount: real, price: real)

  /** `a` sorts strictly before `b` on this side: a higher bid, or a lower ask. */
  predicate Ahead(side: Side, a: Order, b: Order)
  {
    match side
    case BuySide => a.price > b.price
    case SellSide => a.price < b.price
  }

  /** No order sorts strictly before an earlier one. */
  predicate SortedFor(side: Side, s: seq<Order>)
  {
    forall i, j :: 0 <= i < j < |s| ==> !Ahead(side, s[j], s[i])
  }

  /** The orders of `s` at price `p`, in their order in `s`. */
  function AtPrice(s: seq<Order>, p: real): (r: seq<Order>)
    ensures |r| <= |s|
  {
    if |s| == 0 then []
    else (if s[0].price == p then [s[0]] else []) + AtPrice(s[1..], p)
  }

  lemma {:induction false} AtPriceAppend(a: seq<Order>, b: seq<Order>, p: real)
    ensures AtPrice(a + b, p) == AtPrice(a, p) + AtPrice(b, p)
  {
    if |a| == 0 {
      assert a + b == b;
    } else {
      var h := if a[0].price == p then [a[0]] else [];
      assert (a + b)[0] == a[0];
      assert (a + b)[1..] == a[1..] + b;
      assert AtPrice(a + b, p) == h + AtPrice(a[1..] + b, p);
      AtPriceAppend(a[1..], b, p);
      assert h + (AtPrice(a[1..], p) + AtPrice(b, p)) == (h + AtPrice(a[1..], p)) + AtPrice(b, p);
    }
  }

  /** Orders all strictly behind `o` include none at its price. */
  lemma {:induction false} AtPriceNoneBehind(side: Side, s: seq<Order>, o: Order)
    requires forall k :: 0 <= k < |s| ==> Ahead(side, o, s[k])
    ensures AtPrice(s, o.price) == []
  {
    if |s| > 0 {
      AtPriceNoneBehind(side, s[1..], o);
    }
  }

  /**
   * Stable insertion of `o` into a sorted side: after every order it does
   * not sort strictly before, so it goes behind the orders of its own price.
   */
  function Insert(side: Side, s: seq<Order>, o: Order): (r: seq<Order>)
    ensures multiset(r) == multiset(s) + multiset{o}
  {
    if |s| == 0 then [o]
    else if Ahead(side, o, s[0]) then [o] + s
    else
      assert s == [s[0]] + s[1..];
      [s[0]] + Insert(side, s[1..], o)
  }

  /** No order of `s` sorts strictly before `o`. */
  predicate NoneAhead(side: Side, s: seq<Order>, o: Order)
  {
    forall k :: 0 <= k < |s| ==> !Ahead(side, s[k], o)
  }

  /** What is in a sequence with no order ahead of `o` stays so after any reshuffle. */
  lemma NoneAheadMultiset(side: Side, s: seq<Order>, t: seq<Order>, o: Order)
    requires NoneAhead(side, s, o) && multiset(t) <= multiset(s)
    ensures NoneAhead(side, t, o)
  {
    forall k | 0 <= k < |t|
      ensures !Ahead(side, t[k], o)
    {
      assert t[k] in multiset(t);
      assert t[k] in s;
    }
  }

  /** Stable insertion keeps a side sorted. */
  lemma {:induction false} InsertSorted(side: Side, s: seq<Order>, o: Order)
    requires SortedFor(side, s)
    ensures SortedFor(side, Insert(side, s, o))
  {
    if |s| == 0 {
    } else if Ahead(side, o, s[0]) {
      var r := [o] + s;
      forall i, j | 0 <= i < j < |r|
        ensures !Ahead(side, r[j], r[i])
      {
        if i == 0 {
          assert r[j] == s[j - 1];
          assert j - 1 == 0 || !Ahead(side, s[j - 1], s[0]);
        } else {
          assert r[i] == s[i - 1] && r[j] == s[j - 1];
        }
      }
    } else {
      var rest := Insert(side, s[1..], o);
      var r := [s[0]] + rest;
      SortedTail(side, s);
      InsertSorted(side, s[1..], o);
      assert NoneAhead(side, s[1..] + [o], s[0]) by {
        forall k | 0 <= k < |s[1..] + [o]|
          ensures !Ahead(side, (s[1..] + [o])[k], s[0])
        {
          if k < |s| - 1 {
            assert (s[1..] + [o])[k] == s[k + 1];
          }
        }
      }
      assert multiset(rest) == multiset(s[1..] + [o]);
      NoneAheadMultiset(side, s[1..] + [o], rest, s[0]);
      forall i, j | 0 <= i < j < |r|
        ensures !Ahead(side, r[j], r[i])
      {
        if i == 0 {
          assert r[j] == rest[j - 1];
        } else {
          assert r[i] == rest[i - 1] && r[j] == rest[j - 1];
        }
      }
    }
  }

  /** Insertion keeps every price class in arrival order, the new order last. */
  lemma {:induction false} InsertStable(side: Side, s: seq<Order>, o: Order, p: real)
    requires SortedFor(side, s)
    ensures AtPrice(Insert(side, s, o), p) == AtPrice(s + [o], p)
  {
    if |s| == 0 {
      assert s + [o] == [o];
    } else if Ahead(side, o, s[0]) {
      AtPriceAppend(s, [o], p);
      InsertFrontStable(side, s, o, p);
    } else {
      var rest := Insert(side, s[1..], o);
      assert Insert(side, s, o) == [s[0]] + rest;
      SortedTail(side, s);
      InsertStable(side, s[1..], o, p);
      AtPriceCons(s[0], s[1..], rest, o, p);
      assert [s[0]] + s[1..] == s;
    }
  }

  /** Putting the same head in front of both sides keeps an equality of price classes. */
  lemma AtPriceCons(h: Order, tail: seq<Order>, rest: seq<Order>, o: Order, p: real)
    requires AtPrice(rest, p) == AtPrice(tail + [o], p)
    ensures AtPrice([h] + rest, p) == AtPrice(([h] + tail) + [o], p)
  {
    var x0, x1, xo := AtPrice([h], p), AtPrice(tail, p), AtPrice([o], p);
    AtPriceAppend([h], rest, p);
    AtPriceAppend(tail, [o], p);
    AtPriceAppend([h], tail, p);
    AtPriceAppend([h] + tail, [o], p);
    assert x0 + (x1 + xo) == (x0 + x1) + xo;
  }

  lemma SortedTail(side: Side, s: seq<Order>)
    requires SortedFor(side, s) && |s| > 0
    ensures SortedFor(side, s[1..])
  {
    forall i, j | 0 <= i < j < |s| - 1
      ensures !Ahead(side, s[1..][j], s[1..][i])
    {
      assert s[1..][j] == s[j + 1] && s[1..][i] == s[i + 1];
    }
  }

  lemma SortedSplit(side: Side, init: seq<Order>, last: Order)
    requires SortedFor(side, init + [last])
    ensures SortedFor(side, init)
    ensures forall k :: 0 <= k < |init| ==> !Ahead(side, last, init[k])
  {
    var s := init + [last];
    forall i, j | 0 <= i < j < |init|
      ensures !Ahead(side, init[j], init[i])
    {
      assert init[j] == s[j] && init[i] == s[i];
    }
    forall k | 0 <= k < |init|
      ensures !Ahead(side, last, init[k])
    {
      assert init[k] == s[k] && last == s[|init|];
    }
  }

  /** An order placed in front of a sorted side is strictly ahead of all of it, so no order shares its price. */
  lemma InsertFrontStable(side: Side, s: seq<Order>, o: Order, p: real)
    requires SortedFor(side, s) && |s| > 0 && Ahead(side, o, s[0])
    ensures AtPrice([o] + s, p) == AtPrice(s, p) + AtPrice([o], p)
  {
    AtPriceAppend([o], s, p);
    assert [o][1..] == [];
    if p == o.price {
      assert forall k :: 0 <= k < |s| ==> Ahead(side, o, s[k]) by {
        forall k | 0 <= k < |s|
          ensures Ahead(side, o, s[k])
        {
          assert k == 0 || !Ahead(side, s[k], s[0]);
        }
      }
      AtPriceNoneBehind(side, s, o);
    }
  }

  /** An order that sorts before none of `s` is simply appended. */
  lemma {:induction false} InsertAtEnd(side: Side, s: seq<Order>, o: Order)
    requires forall k :: 0 <= k < |s| ==> !Ahead(side, o, s[k])
    ensures Insert(side, s, o) == s + [o]
  {
    if |s| > 0 {
      InsertAtEnd(side, s[1..], o);
      assert s + [o] == [s[0]] + (s[1..] + [o]);
    }
  }

  /**
   * Python's `list.sort(key=price)` (with `reverse=True` on the buy side):
   * a stable sort, here by successive insertion.
   */
  function StableSort(side: Side, s: seq<Order>): (r: seq<Order>)
    ensures multiset(r) == multiset(s)
    ensures SortedFor(side, r)
  {
    if |s| == 0 then []
    else
      var init := StableSort(side, s[..|s| - 1]);
      assert s == s[..|s| - 1] + [s[|s| - 1]];
      InsertSorted(side, init, s[|s| - 1]);
      Insert(side, init, s[|s| - 1])
  }

  /** The sort is stable: each price class keeps its order. */
  lemma {:induction false} StableSortStable(side: Side, s: seq<Order>, p: real)
    ensures AtPrice(StableSort(side, s), p) == AtPrice(s, p)
  {
    if |s| > 0 {
      var init, last := s[..|s| - 1], s[|s| - 1];
      StableSortStable(side, init, p);
      InsertStableStep(side, StableSort(side, init), init, last, p);
      SplitLast(s);
    }
  }

  lemma SplitLast(s: seq<Order>)
    requires |s| > 0
    ensures s == s[..|s| - 1] + [s[|s| - 1]]
  {
  }

  /** One insertion step of the sort keeps the price classes of the input so far. */
  lemma InsertStableStep(side: Side, sorted: seq<Order>, init: seq<Order>, last: Order, p: real)
    requires SortedFor(side, sorted) && AtPrice(sorted, p) == AtPrice(init, p)
    ensures AtPrice(Insert(side, sorted, last), p) == AtPrice(init + [last], p)
  {
    InsertStable(side, sorted, last, p);
    AtPriceAppend(sorted, [last], p);
    AtPriceAppend(init, [last], p);
  }

  /** Sorting an already sorted side changes nothing. */
  lemma {:induction false} StableSortSorted(side: Side, s: seq<Order>)
    requires SortedFor(side, s)
    ensures StableSort(side, s) == s
  {
    if |s| > 0 {
      var init, last := s[..|s| - 1], s[|s| - 1];
      assert s == init + [last];
      SortedSplit(side, init, last);
      StableSortSorted(side, init);
      assert StableSort(side, s) == Insert(side, StableSort(side, init), last);
      InsertAtEnd(side, init, last);
    }
  }

  /** Re-sorting a sorted side after appending one order is stable insertion. */
  lemma {:induction false} SortAfterAppend(side: Side, s: seq<Order>, o: Order)
    requires SortedFor(side, s)
    ensures StableSort(side, s + [o]) == Insert(side, s, o)
  {
    assert (s + [o])[..|s + [o]| - 1] == s;
    StableSortSorted(side, s);
  }

  /** Appends `o` to a side and re-sorts it. */
  function AppendSorted(side: Side, s: seq<Order>, o: Order): (r: seq<Order>)
    ensures multiset(r) == multiset(s) + multiset{o}
    ensures SortedFor(side, r)
  {
    assert multiset(s + [o]) == multiset(s) + multiset{o};
    StableSort(side, s + [o])
  }

  /** The book of `token`, empty when the token has none yet. */
  function BookOf(ex: Exchange, token: string): Book
  {
    if token in ex then ex[token] else Book([], [])
  }

  /**
   * `place_order`: opens an empty book for a new token, appends the order
   * on its side and re-sorts that side stably by price. The other side and
   * every other token's book are left alone.
   */
  function PlaceOrder(ex: Exchange, user: string, token: string, amount: real, price: real, isBuy: bool): (r: Exchange)
    ensures r.Keys == ex.Keys + {token}
    ensures forall t :: t in ex && t != token ==> r[t] == ex[t]
    ensures isBuy ==>
      && r[token].sell == BookOf(ex, token).sell
      && multiset(r[token].buy) == multiset(BookOf(ex, token).buy) + multiset{Order(user, amount, price)}
      && SortedFor(BuySide, r[token].buy)
    ensures !isBuy ==>
      && r[token].buy == BookOf(ex, token).buy
      && multiset(r[token].sell) == multiset(BookOf(ex, token).sell) + multiset{Order(user, amount, price)}
      && SortedFor(SellSide, r[token].sell)
  {
    var book := BookOf(ex, token);
    var order := Order(user, amount, price);
    var book' :=
      if isBuy then Book(AppendSorted(BuySide, book.buy, order), book.sell)
      else Book(book.buy, AppendSorted(SellSide, book.sell, order));
    ex[token := book']
  }

  /**
   * On a book built by `place_order`, placing an order inserts it behind
   * every order of its price and keeps each price class in arrival order.
   */
  lemma PlaceOrderInsertsStably(ex: Exchange, user: string, token: string, amount: real, price: real, isBuy: bool, p: real)
    requires SortedFor(BuySide, BookOf(ex, token).buy) && SortedFor(SellSide, BookOf(ex, token).sell)
    ensures isBuy ==>
      && PlaceOrder(ex, user, token, amount, price, isBuy)[token].buy == Insert(BuySide, BookOf(ex, token).buy, Order(user, amount, price))
      && AtPrice(PlaceOrder(ex, user, token, amount, price, isBuy)[token].buy, p) == AtPrice(BookOf(ex, token).buy, p) + AtPrice([Order(user, amount, price)], p)
    ensures !isBuy ==>
      && PlaceOrder(ex, user, token, amount, price, isBuy)[token].sell == Insert(SellSide, BookOf(ex, token).sell, Order(user, amount, price))
      && AtPrice(PlaceOrder(ex, user, token, amount, price, isBuy)[token].sell, p) == AtPrice(BookOf(ex, token).sell, p) + AtPrice([Order(user, amount, price)], p)
  {
    var book, o := BookOf(ex, token), Order(user, amount, price);
    if isBuy {
      SortAfterAppend(BuySide, book.buy, o);
      InsertStable(BuySide, book.buy, o, p);
      AtPriceAppend(book.buy, [o], p);
    } else {
      SortAfterAppend(SellSide, book.sell, o);
      InsertStable(SellSide, book.sell, o, p);
      AtPriceAppend(book.sell, [o], p);
    }
  }

  /** The summed amount of a side. */
  function Amount(s: seq<Order>): real
  {
    if |s| == 0 then 0.0 else s[0].amount + Amount(s[1..])
  }

  /** The summed amount of a trade log. */
  function Traded(ts: seq<Trade>): real
  {
    if |ts| == 0 then 0.0 else ts[0].amount + Traded(ts[1..])
  }

  /** `rest` is what is left of `s` after dropping heads: a suffix, the head's amount possibly changed. */
  predicate Remainder(rest: seq<Order>, s: seq<Order>)
  {
    && |rest| <= |s|
    && (forall i :: 0 < i < |rest| ==> rest[i] == s[|s| - |rest| + i])
    && (|rest| > 0 ==> rest[0] == s[|s| - |rest|].(amount := rest[0].amount))
  }

  lemma RemainderTrans(a: seq<Order>, b: seq<Order>, c: seq<Order>)
    requires Remainder(a, b) && Remainder(b, c)
    ensures Remainder(a, c)
  {
    if |a| > 0 && |a| == |b| {
      assert a[0] == b[0].(amount := a[0].amount);
    }
  }

  /** Dropping heads and changing a head's amount keeps a side sorted. */
  lemma RemainderKeepsSorted(side: Side, rest: seq<Order>, s: seq<Order>)
    requires Remainder(rest, s) && SortedFor(side, s)
    ensures SortedFor(side, rest)
  {
    var off := |s| - |rest|;
    forall i, j | 0 <= i < j < |rest|
      ensures !Ahead(side, rest[j], rest[i])
    {
      assert rest[j].price == s[off + j].price && rest[i].price == s[off + i].price;
    }
  }

  /** Python's `min(a, b)`: the first argument unless the second is smaller. */
  function MinAmount(a: real, b: real): (m: real)
    ensures m == a || m == b
    ensures m <= a && m <= b
  {
    if b < a then b else a
  }

  /** Reduces the head of a side by `traded`, popping it when nothing is left. */
  function ReduceHead(s: seq<Order>, traded: real): (r: seq<Order>)
    requires |s| > 0
    ensures Amount(r) == Amount(s) - traded
    ensures Remainder(r, s)
    ensures s[0].amount == traded ==> |r| == |s| - 1
  {
    var head := s[0].(amount := s[0].amount - traded);
    assert ([head] + s[1..])[1..] == s[1..];
    if head.amount == 0.0 then s[1..] else [head] + s[1..]
  }

  /** Both sides have a head and the best bid reaches the best ask. */
  predicate Crossing(buy: seq<Order>, sell: seq<Order>)
  {
    |buy| > 0 && |sell| > 0 && buy[0].price >= sell[0].price
  }

  /**
   * The `while` loop of `match_orders`: while the book crosses, trade the
   * smaller head amount at the midpoint price and pop any head that is
   * used up. One head always is, so the loop ends, and it ends only when
   * the book no longer crosses. The result is the two remaining sides and
   * the trades executed, in order.
   */
  function Match(token: string, buy: seq<Order>, sell: seq<Order>): (r: (seq<Order>, seq<Order>, seq<Trade>))
    ensures !Crossing(r.0, r.1)
    ensures !Crossing(buy, sell) ==> r == (buy, sell, [])
    decreases |buy| + |sell|
  {
    if Crossing(buy, sell) then
      var traded := MinAmount(buy[0].amount, sell[0].amount);
      var trade := Trade(token, buy[0].user, sell[0].user, traded, (buy[0].price + sell[0].price) / 2.0);
      var rest := Match(token, ReduceHead(buy, traded), ReduceHead(sell, traded));
      (rest.0, rest.1, [trade] + rest.2)
    else (buy, sell, [])
  }

  /**
   * Matching only drops heads and changes the amount of the surviving head,
   * on both sides. The change is not a reduction in general: `place_order`
   * accepts negative amounts, and trading a negative amount raises the
   * other head; `MatchReduces` covers non-negative amounts.
   */
  lemma {:induction false} MatchRemainder(token: string, buy: seq<Order>, sell: seq<Order>)
    ensures Remainder(Match(token, buy, sell).0, buy) && Remainder(Match(token, buy, sell).1, sell)
    decreases |buy| + |sell|
  {
    if Crossing(buy, sell) {
      var traded := MinAmount(buy[0].amount, sell[0].amount);
      var buy', sell' := ReduceHead(buy, traded), ReduceHead(sell, traded);
      MatchRemainder(token, buy', sell');
      RemainderTrans(Match(token, buy', sell').0, buy', buy);
      RemainderTrans(Match(token, buy', sell').1, sell', sell);
    } else {
      assert Remainder(buy, buy) && Remainder(sell, sell);
    }
  }

  /** Every order on a side has a non-negative amount. */
  predicate NonNegative(s: seq<Order>)
  {
    forall i :: 0 <= i < |s| ==> s[i].amount >= 0.0
  }

  /** A `Remainder` whose head amount lies between zero and the amount it had in `s`. */
  predicate Reduced(rest: seq<Order>, s: seq<Order>)
  {
    && Remainder(rest, s)
    && (|rest| > 0 ==> 0.0 <= rest[0].amount <= s[|s| - |rest|].amount)
  }

  lemma ReducedTrans(a: seq<Order>, b: seq<Order>, c: seq<Order>)
    requires Reduced(a, b) && Reduced(b, c)
    ensures Reduced(a, c)
  {
    RemainderTrans(a, b, c);
    if 0 < |a| < |b| {
      assert a[0] == b[|b| - |a|].(amount := a[0].amount);
      assert b[|b| - |a|] == c[|c| - |a|];
    }
  }

  /** Trading at most a non-negative head's amount reduces it and keeps the side non-negative. */
  lemma ReduceHeadReduces(s: seq<Order>, traded: real)
    requires |s| > 0 && NonNegative(s) && 0.0 <= traded <= s[0].amount
    ensures Reduced(ReduceHead(s, traded), s) && NonNegative(ReduceHead(s, traded))
  {
    var r := ReduceHead(s, traded);
    forall i | 0 <= i < |r| ensures r[i].amount >= 0.0 {
      if i > 0 || |r| < |s| {
        assert r[i] == s[|s| - |r| + i];
      }
    }
  }

  /**
   * With non-negative amounts on both sides, matching lowers the surviving
   * head's amount, never below zero, and leaves both sides non-negative.
   */
  lemma {:induction false} MatchReduces(token: string, buy: seq<Order>, sell: seq<Order>)
    requires NonNegative(buy) && NonNegative(sell)
    ensures Reduced(Match(token, buy, sell).0, buy) && Reduced(Match(token, buy, sell).1, sell)
    ensures NonNegative(Match(token, buy, sell).0) && NonNegative(Match(token, buy, sell).1)
    decreases |buy| + |sell|
  {
    if Crossing(buy, sell) {
      var traded := MinAmount(buy[0].amount, sell[0].amount);
      var buy', sell' := ReduceHead(buy, traded), ReduceHead(sell, traded);
      ReduceHeadReduces(buy, traded);
      ReduceHeadReduces(sell, traded);
      MatchReduces(token, buy', sell');
      ReducedTrans(Match(token, buy', sell').0, buy', buy);
      ReducedTrans(Match(token, buy', sell').1, sell', sell);
    } else {
      assert Reduced(buy, buy) && Reduced(sell, sell);
    }
  }

  /** What leaves the buy side, what leaves the sell side and what is traded are the same amount. */
  lemma {:induction false} MatchConserves(token: string, buy: seq<Order>, sell: seq<Order>)
    ensures var r := Match(token, buy, sell);
      Amount(buy) - Amount(r.0) == Traded(r.2) == Amount(sell) - Amount(r.1)
    decreases |buy| + |sell|
  {
    if Crossing(buy, sell) {
      var traded := MinAmount(buy[0].amount, sell[0].amount);
      var trade := Trade(token, buy[0].user, sell[0].user, traded, (buy[0].price + sell[0].price) / 2.0);
      var buy', sell' := ReduceHead(buy, traded), ReduceHead(sell, traded);
      MatchConserves(token, buy', sell');
      var rest := Match(token, buy', sell');
      assert ([trade] + rest.2)[1..] == rest.2;
    }
  }

  /** Matching keeps both sides sorted. */
  lemma MatchKeepsSorted(token: string, buy: seq<Order>, sell: seq<Order>)
    ensures SortedFor(BuySide, buy) ==> SortedFor(BuySide, Match(token, buy, sell).0)
    ensures SortedFor(SellSide, sell) ==> SortedFor(SellSide, Match(token, buy, sell).1)
  {
    MatchRemainder(token, buy, sell);
    if SortedFor(BuySide, buy) {
      RemainderKeepsSorted(BuySide, Match(token, buy, sell).0, buy);
    }
    if SortedFor(SellSide, sell) {
      RemainderKeepsSorted(SellSide, Match(token, buy, sell).1, sell);
    }
  }

  /**
   * On sorted sides every trade is priced between the opening best ask and
   * the opening best bid: each is the midpoint of a crossing bid and ask,
   * and later heads bid no more and ask no less.
   */
  lemma {:induction false} MatchPriceBounds(token: string, buy: seq<Order>, sell: seq<Order>)
    requires SortedFor(BuySide, buy) && SortedFor(SellSide, sell)
    ensures var ts := Match(token, buy, sell).2;
      |ts| > 0 ==> Crossing(buy, sell) && forall i :: 0 <= i < |ts| ==> sell[0].price <= ts[i].price <= buy[0].price
    decreases |buy| + |sell|
  {
    if Crossing(buy, sell) {
      var traded := MinAmount(buy[0].amount, sell[0].amount);
      var buy', sell' := ReduceHead(buy, traded), ReduceHead(sell, traded);
      RemainderKeepsSorted(BuySide, buy', buy);
      RemainderKeepsSorted(SellSide, sell', sell);
      MatchPriceBounds(token, buy', sell');
      var ts := Match(token, buy, sell).2;
      var rest := Match(token, buy', sell').2;
      var trade := Trade(token, buy[0].user, sell[0].user, traded, (buy[0].price + sell[0].price) / 2.0);
      assert ts == [trade] + rest;
      if |rest| > 0 {
        assert buy'[0].price <= buy[0].price;
        assert sell'[0].price >= sell[0].price;
      }
      forall i | 0 <= i < |ts|
        ensures sell[0].price <= ts[i].price <= buy[0].price
      {
        if i > 0 {
          assert ts[i] == rest[i - 1];
        }
      }
    }
  }

  /**
   * What matching a book leaves: a book that no longer crosses, each side
   * a remainder of the old one, the same amount gone from each side as was
   * traded, and each sorted side still sorted.
   */
  predicate Matched(b: Book, b': Book, trades: seq<Trade>)
  {
    && !Crossing(b'.buy, b'.sell)
    && Remainder(b'.buy, b.buy) && Remainder(b'.sell, b.sell)
    && Amount(b.buy) - Amount(b'.buy) == Traded(trades) == Amount(b.sell) - Amount(b'.sell)
    && (SortedFor(BuySide, b.buy) ==> SortedFor(BuySide, b'.buy))
    && (SortedFor(SellSide, b.sell) ==> SortedFor(SellSide, b'.sell))
  }

  /** The loop's result satisfies `Matched`. */
  lemma MatchIsMatched(token: string, b: Book)
    ensures var m := Match(token, b.buy, b.sell);
      Matched(b, Book(m.0, m.1), m.2)
  {
    MatchRemainder(token, b.buy, b.sell);
    MatchConserves(token, b.buy, b.sell);
    MatchKeepsSorted(token, b.buy, b.sell);
  }

  /**
   * `match_orders`: a token without a book is left alone and trades nothing;
   * otherwise its book is replaced by what the loop leaves.
   */
  function MatchOrders(ex: Exchange, token: string): (r: (Exchange, seq<Trade>))
    ensures token !in ex ==> r == (ex, [])
    ensures r.0.Keys == ex.Keys
    ensures forall t :: t in ex && t != token ==> r.0[t] == ex[t]
    ensures token in ex ==> Matched(ex[token], r.0[token], r.1)
  {
    if token !in ex then (ex, [])
    else
      var b := ex[token];
      var m := Match(token, b.buy, b.sell);
      MatchIsMatched(token, b);
      (ex[token := Book(m.0, m.1)], m.2)
  }
}
