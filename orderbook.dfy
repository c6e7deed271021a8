/**
 * The order-book engine: an order book is a list of price levels
 * (amount, price), cheapest first, and the two walkers buy and sell consume
 * whole levels and then part of the last one.  Amounts and prices are exact
 * reals here.
 */
module OrderBook {

  datatype Level = Level(amount: real, price: real)

  type Book = seq<Level>

  /** What a whole level is worth in counter units. */
  function Worth(level: Level): real {
    level.amount * level.price
  }

  /** Sum of the level amounts: what the book can deliver in all. */
  function TotalAmount(book: Book): real {
    if book == [] then 0.0 else book[0].amount + TotalAmount(book[1..])
  }

  /** Sum of amount * price: what buying the whole book costs. */
  function TotalValue(book: Book): real {
    if book == [] then 0.0 else Worth(book[0]) + TotalValue(book[1..])
  }

  /** Adding a level at the end adds its amount (the running sum of a capacity loop). */
  lemma {:induction false} TotalAmountAppend(book: Book, level: Level)
    ensures TotalAmount(book + [level]) == TotalAmount(book) + level.amount
  {
    if book != [] {
      assert (book + [level])[1..] == book[1..] + [level];
      TotalAmountAppend(book[1..], level);
    }
  }

  predicate NonNegativeAmounts(book: Book) {
    forall i :: 0 <= i < |book| ==> book[i].amount >= 0.0
  }

  predicate NonNegativePrices(book: Book) {
    forall i :: 0 <= i < |book| ==> book[i].price >= 0.0
  }

  predicate PositivePrices(book: Book) {
    forall i :: 0 <= i < |book| ==> book[i].price > 0.0
  }

  /**
   * The cost of buying `quantity`: while the remaining quantity exceeds a
   * level's amount, the whole level is bought; the first level it fits in is
   * bought partially and the walk stops.  Whatever is left over when the book
   * runs out is silently dropped.
   */
  function BuyCost(book: Book, quantity: real): real {
    if book == [] then 0.0
    else if quantity > book[0].amount then
      Worth(book[0]) + BuyCost(book[1..], quantity - book[0].amount)
    else quantity * book[0].price
  }

  /**
   * What selling `value` (in counter units) yields: a level whose value
   * amount * price is exceeded is taken whole; the level that covers the rest
   * yields rest / price.
   */
  function SellProceeds(book: Book, value: real): real
    requires PositivePrices(book)
  {
    if book == [] then 0.0
    else if value > Worth(book[0]) then
      book[0].amount + SellProceeds(book[1..], value - Worth(book[0]))
    else value / book[0].price
  }

  /** orderbook.buy: the level-walking loop, proved to compute BuyCost. */
  method Buy(book: Book, amountToBuy: real) returns (amountToSell: real)
    ensures amountToSell == BuyCost(book, amountToBuy)
  {
    amountToSell := 0.0;
    var remaining := amountToBuy;
    for i := 0 to |book|
      invariant amountToSell + BuyCost(book[i..], remaining) == BuyCost(book, amountToBuy)
    {
      var level := book[i];
      if remaining > level.amount {
        amountToSell := amountToSell + Worth(level);
        remaining := remaining - level.amount;
        assert book[i..][1..] == book[i + 1..];
      } else {
        amountToSell := amountToSell + remaining * level.price;
        return;
      }
    }
  }

  /** orderbook.sell: the value-walking loop, proved to compute SellProceeds. */
  method Sell(book: Book, amountToSell: real) returns (amountToBuy: real)
    requires PositivePrices(book)
    ensures amountToBuy == SellProceeds(book, amountToSell)
  {
    amountToBuy := 0.0;
    var remaining := amountToSell;
    for i := 0 to |book|
      invariant amountToBuy + SellProceeds(book[i..], remaining) == SellProceeds(book, amountToSell)
    {
      var level := book[i];
      assert book[i..][0] == level && PositivePrices(book[i..]);
      if remaining > Worth(level) {
        amountToBuy := amountToBuy + level.amount;
        remaining := remaining - Worth(level);
        assert book[i..][1..] == book[i + 1..];
      } else {
        amountToBuy := amountToBuy + remaining / level.price;
        return;
      }
    }
  }

  /** The worked example: 50 at 2 plus 30 at 3. */
  lemma BuyExample()
    ensures BuyCost([Level(50.0, 2.0), Level(50.0, 3.0)], 80.0) == 190.0
  {
  }

  /** Asking for more than the book holds costs exactly the whole book, whatever the
      shortfall: the result does not reveal that liquidity ran out. */
  lemma {:induction false} BuyBeyondTotal(book: Book, quantity: real)
    requires NonNegativeAmounts(book)
    requires quantity > TotalAmount(book)
    ensures BuyCost(book, quantity) == TotalValue(book)
  {
    if book != [] {
      TotalAmountNonNegative(book[1..]);
      BuyBeyondTotal(book[1..], quantity - book[0].amount);
    }
  }

  lemma {:induction false} TotalAmountNonNegative(book: Book)
    requires NonNegativeAmounts(book)
    ensures TotalAmount(book) >= 0.0
  {
    if book != [] {
      TotalAmountNonNegative(book[1..]);
    }
  }

  /** Buying a non-negative quantity never costs a negative amount. */
  lemma {:induction false} BuyNonNegative(book: Book, quantity: real)
    requires NonNegativeAmounts(book) && NonNegativePrices(book)
    requires quantity >= 0.0
    ensures BuyCost(book, quantity) >= 0.0
  {
    if book != [] && quantity > book[0].amount {
      BuyNonNegative(book[1..], quantity - book[0].amount);
    }
  }

  /** Buying more never costs less. */
  lemma {:induction false} BuyMonotone(book: Book, q1: real, q2: real)
    requires NonNegativeAmounts(book) && NonNegativePrices(book)
    requires q1 <= q2
    ensures BuyCost(book, q1) <= BuyCost(book, q2)
  {
    if book != [] {
      var a, p, w := book[0].amount, book[0].price, Worth(book[0]);
      if q2 > a {
        BuyNonNegative(book[1..], q2 - a);
        if q1 > a {
          BuyMonotone(book[1..], q1 - a, q2 - a);
        } else {
          assert q1 * p <= w;
        }
      } else {
        assert q1 * p <= q2 * p;
      }
    }
  }

  /** A positive quantity the book can cover has a positive cost when prices are positive. */
  lemma {:induction false} BuyPositive(book: Book, quantity: real)
    requires NonNegativeAmounts(book) && PositivePrices(book)
    requires 0.0 < quantity <= TotalAmount(book)
    ensures BuyCost(book, quantity) > 0.0
  {
    var a, w := book[0].amount, Worth(book[0]);
    if quantity > a {
      BuyPositive(book[1..], quantity - a);
      assert w >= 0.0;
    }
  }

  /** Selling a non-negative value never yields a negative amount. */
  lemma {:induction false} SellNonNegative(book: Book, value: real)
    requires NonNegativeAmounts(book) && PositivePrices(book)
    requires value >= 0.0
    ensures SellProceeds(book, value) >= 0.0
  {
    if book != [] && value > Worth(book[0]) {
      SellNonNegative(book[1..], value - Worth(book[0]));
    }
  }

  /** Selling more never yields less. */
  lemma {:induction false} SellMonotone(book: Book, v1: real, v2: real)
    requires NonNegativeAmounts(book) && PositivePrices(book)
    requires v1 <= v2
    ensures SellProceeds(book, v1) <= SellProceeds(book, v2)
  {
    if book != [] {
      var a, p, w := book[0].amount, book[0].price, Worth(book[0]);
      if v2 > w {
        SellNonNegative(book[1..], v2 - w);
        if v1 > w {
          SellMonotone(book[1..], v1 - w, v2 - w);
        } else {
          DivideMonotone(v1, w, p);
          assert w / p == a;
        }
      } else {
        DivideMonotone(v1, v2, p);
      }
    }
  }

  lemma DivideMonotone(x: real, y: real, p: real)
    requires x <= y && p > 0.0
    ensures x / p <= y / p
  {
    assert y / p - x / p == (y - x) / p;
  }

  /** In exact arithmetic sell undoes buy: selling what it costs to buy q yields q,
      for any q the book can cover. */
  lemma {:induction false} SellUndoesBuy(book: Book, quantity: real)
    requires NonNegativeAmounts(book) && PositivePrices(book)
    requires 0.0 <= quantity <= TotalAmount(book)
    ensures SellProceeds(book, BuyCost(book, quantity)) == quantity
  {
    if book != [] {
      var a, p, w := book[0].amount, book[0].price, Worth(book[0]);
      if quantity > a {
        BuyPositive(book[1..], quantity - a);
        SellUndoesBuy(book[1..], quantity - a);
      } else {
        assert quantity * p <= w;
        assert (quantity * p) / p == quantity;
      }
    }
  }
}
