/**
 * The liquidity graph: for every asset that offers sell, the list of arcs to
 * the assets those offers buy, each arc carrying its capacity (the sum of the
 * level amounts) and its order book.  Setup builds the graph from a snapshot of
 * offers; Update replaces, appends or deletes one arc.
 */
module LiquidityGraph {
  import opened Wrappers
  import opened Seqs
  import Assets
  import opened OrderBook

  /** A link from a node to `counter`: [counter asset, capacity, order book]. */
  datatype Arc = Arc(counter: string, capacity: real, book: Book)

  /** Node identity (the selling asset) to its arcs, in the order they were added. */
  type Graph = map<string, seq<Arc>>

  /** An offers row: the selling and buying asset columns, amount and price. */
  datatype Offer = Offer(
    sellingType: int, sellingCode: Option<string>, sellingIssuer: Option<string>,
    buyingType: int, buyingCode: Option<string>, buyingIssuer: Option<string>,
    amount: real, price: real)

  /** graph.toAssetPair: (buying identity, selling identity), in that order. */
  function ToAssetPair(offer: Offer): (pair: (string, string)) {
    (Assets.ToString(offer.buyingType, offer.buyingCode, offer.buyingIssuer),
     Assets.ToString(offer.sellingType, offer.sellingCode, offer.sellingIssuer))
  }

  function Selling(offer: Offer): string {
    ToAssetPair(offer).1
  }

  function Buying(offer: Offer): string {
    ToAssetPair(offer).0
  }

  function LevelOf(offer: Offer): Level {
    Level(offer.amount, offer.price)
  }

  /** The offer's type columns with the code/issuer columns, in structured form. */
  function SellingTuple(offer: Offer): Assets.AssetTuple
    requires 0 <= offer.sellingType <= 2
  {
    var kind := if offer.sellingType == 0 then Assets.Native
                else if offer.sellingType == 1 then Assets.CreditAlphanum4 else Assets.CreditAlphanum12;
    if kind == Assets.Native then Assets.NativeTuple
    else Assets.AssetTuple(kind, offer.sellingCode, offer.sellingIssuer)
  }

  function BuyingTuple(offer: Offer): Assets.AssetTuple
    requires 0 <= offer.buyingType <= 2
  {
    var kind := if offer.buyingType == 0 then Assets.Native
                else if offer.buyingType == 1 then Assets.CreditAlphanum4 else Assets.CreditAlphanum12;
    if kind == Assets.Native then Assets.NativeTuple
    else Assets.AssetTuple(kind, offer.buyingCode, offer.buyingIssuer)
  }

  /** The pair puts the buying asset first: parsing its two identities gives back
      the buying and then the selling columns of a well-formed row. */
  lemma AssetPairParses(offer: Offer)
    requires 0 <= offer.sellingType <= 2 && 0 <= offer.buyingType <= 2
    requires Assets.WellFormedTuple(BuyingTuple(offer)) && Assets.WellFormedTuple(SellingTuple(offer))
    ensures Assets.ToTuple(ToAssetPair(offer).0) == BuyingTuple(offer)
    ensures Assets.ToTuple(ToAssetPair(offer).1) == SellingTuple(offer)
  {
    Assets.ParseIdentity(BuyingTuple(offer));
    Assets.ParseIdentity(SellingTuple(offer));
  }

  // ---------------------------------------------------------------------------
  // What setup builds

  /** Some offer sells `s` for `b`. */
  ghost predicate HasPair(offers: seq<Offer>, s: string, b: string) {
    exists i :: 0 <= i < |offers| && Selling(offers[i]) == s && Buying(offers[i]) == b
  }

  /** The assets some offer sells: the nodes of the graph. */
  function SellingAssets(offers: seq<Offer>): set<string> {
    set i | 0 <= i < |offers| :: Selling(offers[i])
  }

  /** The assets that offers selling `s` buy, without repeats, in order of first appearance. */
  function Counters(offers: seq<Offer>, s: string): (cs: seq<string>)
    ensures NoDup(cs)
  {
    if offers == [] then []
    else
      var o, prev := offers[|offers| - 1], Counters(offers[..|offers| - 1], s);
      if Selling(o) == s && Buying(o) !in prev then prev + [Buying(o)] else prev
  }

  /** The levels of the offers that sell `s` for `b`, in offer order. */
  function LevelsOf(offers: seq<Offer>, s: string, b: string): seq<Level> {
    if offers == [] then []
    else
      var o, prev := offers[|offers| - 1], LevelsOf(offers[..|offers| - 1], s, b);
      if Selling(o) == s && Buying(o) == b then prev + [LevelOf(o)] else prev
  }

  /** Ascending by price. */
  predicate SortedByPrice(book: Book) {
    forall i, j :: 0 <= i < j < |book| ==> book[i].price <= book[j].price
  }

  /** Insert `level` before the first level that is not cheaper. */
  function Insert(level: Level, book: Book): (r: Book)
    ensures multiset(r) == multiset(book) + multiset{level}
    ensures SortedByPrice(book) ==> SortedByPrice(r)
  {
    if book == [] || level.price <= book[0].price then [level] + book
    else
      var rest := Insert(level, book[1..]);
      assert book == [book[0]] + book[1..];
      InsertSorted(level, book, rest);
      [book[0]] + rest
  }

  lemma InsertSorted(level: Level, book: Book, rest: Book)
    requires book != [] && level.price > book[0].price
    requires multiset(rest) == multiset(book[1..]) + multiset{level}
    requires SortedByPrice(book) ==> SortedByPrice(rest)
    ensures SortedByPrice(book) ==> SortedByPrice([book[0]] + rest)
  {
    if SortedByPrice(book) {
      var r := [book[0]] + rest;
      forall j | 1 <= j < |r| ensures book[0].price <= r[j].price {
        assert r[j] in multiset(rest);
        if r[j] != level {
          assert r[j] in multiset(book[1..]);
          var k :| 0 <= k < |book[1..]| && book[1..][k] == r[j];
          assert book[k + 1] == r[j];
        }
      }
    }
  }

  /** Sort the levels by price (the source sorts the offers by price in place). */
  function SortByPrice(book: Book): (r: Book)
    ensures SortedByPrice(r)
    ensures multiset(r) == multiset(book)
  {
    if book == [] then []
    else
      assert book == [book[0]] + book[1..];
      Insert(book[0], SortByPrice(book[1..]))
  }

  /** An arc whose capacity is the sum of its book's amounts. */
  function MakeArc(counter: string, book: Book): Arc {
    Arc(counter, TotalAmount(book), book)
  }

  /** The arcs of node `s`: one per counter asset, book sorted, capacity summed. */
  function ArcsOf(offers: seq<Offer>, s: string): seq<Arc> {
    var cs := Counters(offers, s);
    seq(|cs|, k requires 0 <= k < |cs| => MakeArc(cs[k], SortByPrice(LevelsOf(offers, s, cs[k]))))
  }

  /** The graph setup builds from a snapshot of offers. */
  function Built(offers: seq<Offer>): Graph {
    map s | s in SellingAssets(offers) :: ArcsOf(offers, s)
  }

  lemma {:induction false} CountersSpec(offers: seq<Offer>, s: string)
    ensures forall b :: b in Counters(offers, s) <==> HasPair(offers, s, b)
  {
    if offers != [] {
      var n := |offers| - 1;
      CountersSpec(offers[..n], s);
      forall b ensures HasPair(offers, s, b) <==> HasPair(offers[..n], s, b) || (Selling(offers[n]) == s && Buying(offers[n]) == b) {
        HasPairStep(offers, s, b);
      }
    }
  }

  /** An offer list has a pair when its prefix has it or its last offer is of it. */
  lemma HasPairStep(offers: seq<Offer>, s: string, b: string)
    requires offers != []
    ensures var n := |offers| - 1;
            HasPair(offers, s, b) <==> HasPair(offers[..n], s, b) || (Selling(offers[n]) == s && Buying(offers[n]) == b)
  {
    var n := |offers| - 1;
    var prefix := offers[..n];
    if HasPair(offers, s, b) {
      var i :| 0 <= i < |offers| && Selling(offers[i]) == s && Buying(offers[i]) == b;
      if i < n {
        assert prefix[i] == offers[i];
      }
    }
    if HasPair(prefix, s, b) {
      var i :| 0 <= i < |prefix| && Selling(prefix[i]) == s && Buying(prefix[i]) == b;
      assert offers[i] == prefix[i];
    }
  }

  lemma {:induction false} LevelsOfAbsent(offers: seq<Offer>, s: string, b: string)
    requires !HasPair(offers, s, b)
    ensures LevelsOf(offers, s, b) == []
  {
    if offers != [] {
      var n := |offers| - 1;
      var prefix := offers[..n];
      forall i | 0 <= i < |prefix| ensures !(Selling(prefix[i]) == s && Buying(prefix[i]) == b) {
        assert offers[i] == prefix[i];
      }
      LevelsOfAbsent(prefix, s, b);
    }
  }

  /** Every offer's level is among the levels of its own pair. */
  lemma {:induction false} LevelsOfComplete(offers: seq<Offer>, i: nat)
    requires i < |offers|
    ensures LevelOf(offers[i]) in LevelsOf(offers, Selling(offers[i]), Buying(offers[i]))
  {
    var n := |offers| - 1;
    if i < n {
      var prefix := offers[..n];
      assert prefix[i] == offers[i];
      LevelsOfComplete(prefix, i);
    }
  }

  /** Every level of a pair comes from an offer of that pair. */
  lemma {:induction false} LevelsOfSound(offers: seq<Offer>, s: string, b: string, level: Level)
    requires level in LevelsOf(offers, s, b)
    ensures exists i :: 0 <= i < |offers| && Selling(offers[i]) == s && Buying(offers[i]) == b && LevelOf(offers[i]) == level
  {
    var n := |offers| - 1;
    var prefix := offers[..n];
    if level in LevelsOf(prefix, s, b) {
      LevelsOfSound(prefix, s, b, level);
      var i :| 0 <= i < |prefix| && Selling(prefix[i]) == s && Buying(prefix[i]) == b && LevelOf(prefix[i]) == level;
      assert offers[i] == prefix[i];
    } else {
      assert Selling(offers[n]) == s && Buying(offers[n]) == b && LevelOf(offers[n]) == level;
    }
  }

  // ---------------------------------------------------------------------------
  // Invariants of a graph

  /** No two arcs of one node lead to the same counter asset. */
  predicate DistinctCounters(arcs: seq<Arc>) {
    forall i, j :: 0 <= i < j < |arcs| ==> arcs[i].counter != arcs[j].counter
  }

  /** Every arc's capacity is the sum of its book's amounts. */
  predicate CapacitiesMatch(arcs: seq<Arc>) {
    forall i :: 0 <= i < |arcs| ==> arcs[i].capacity == TotalAmount(arcs[i].book)
  }

  /** No empty node, no duplicate counter asset, capacities up to date. */
  predicate WellFormed(g: Graph) {
    forall s :: s in g ==> g[s] != [] && DistinctCounters(g[s]) && CapacitiesMatch(g[s])
  }

  /** Every book is sorted ascending by price. */
  predicate BooksSorted(g: Graph) {
    forall s, i :: s in g && 0 <= i < |g[s]| ==> SortedByPrice(g[s][i].book)
  }

  /** Array.prototype.findIndex on the counter asset: the first arc to `counter`, or -1. */
  function FindArc(arcs: seq<Arc>, counter: string): (i: int)
    ensures -1 <= i < |arcs|
    ensures 0 <= i ==> arcs[i].counter == counter
    ensures forall k :: 0 <= k < |arcs| && (i == -1 || k < i) ==> arcs[k].counter != counter
  {
    if arcs == [] then -1
    else if arcs[0].counter == counter then 0
    else
      var j := FindArc(arcs[1..], counter);
      if j == -1 then -1 else j + 1
  }

  /** The arc of a node to `counter`, if any (the first one, as findIndex finds it). */
  function ArcTo(arcs: seq<Arc>, counter: string): Option<Arc> {
    var i := FindArc(arcs, counter);
    if i == -1 then None else Some(arcs[i])
  }

  /** The arc of node `s` to `b`, if any. */
  function Lookup(g: Graph, s: string, b: string): Option<Arc> {
    if s in g then ArcTo(g[s], b) else None
  }

  /** With distinct counters, the arc to a counter is the one carrying it. */
  lemma ArcToUnique(arcs: seq<Arc>, k: int)
    requires DistinctCounters(arcs)
    requires 0 <= k < |arcs|
    ensures ArcTo(arcs, arcs[k].counter) == Some(arcs[k])
  {
    var i := FindArc(arcs, arcs[k].counter);
    assert i == k;
  }

  // ---------------------------------------------------------------------------
  // What setup builds, as a graph

  /** Setup builds a well-formed graph whose books are all sorted. */
  lemma BuiltWellFormed(offers: seq<Offer>)
    ensures WellFormed(Built(offers)) && BooksSorted(Built(offers))
  {
    var g: Graph := Built(offers);
    forall s | s in g ensures g[s] != [] {
      var i :| 0 <= i < |offers| && Selling(offers[i]) == s;
      CountersSpec(offers, s);
      assert HasPair(offers, s, Buying(offers[i]));
      assert Buying(offers[i]) in Counters(offers, s);
    }
  }

  /** Setup places the levels of each pair in exactly one arc: the arc to the buying
      asset under the node of the selling asset holds the pair's levels, sorted; a pair
      no offer has gets no arc. */
  lemma BuiltPlacement(offers: seq<Offer>, s: string, b: string)
    ensures HasPair(offers, s, b) ==> Lookup(Built(offers), s, b) == Some(MakeArc(b, SortByPrice(LevelsOf(offers, s, b))))
    ensures !HasPair(offers, s, b) ==> Lookup(Built(offers), s, b) == None
  {
    var g: Graph := Built(offers);
    CountersSpec(offers, s);
    BuiltWellFormed(offers);
    var cs := Counters(offers, s);
    if HasPair(offers, s, b) {
      var i :| 0 <= i < |offers| && Selling(offers[i]) == s && Buying(offers[i]) == b;
      assert s in g;
      var k :| 0 <= k < |cs| && cs[k] == b;
      ArcToUnique(g[s], k);
    } else if s in g {
      forall k | 0 <= k < |g[s]| ensures g[s][k].counter != b {
        assert g[s][k].counter == cs[k];
      }
    }
  }

  /** Every offer's level sits in the book of its own pair. */
  lemma OfferPlaced(offers: seq<Offer>, i: nat)
    requires i < |offers|
    ensures var arc := Lookup(Built(offers), Selling(offers[i]), Buying(offers[i]));
            arc.Some? && LevelOf(offers[i]) in arc.value.book
  {
    var s, b := Selling(offers[i]), Buying(offers[i]);
    assert HasPair(offers, s, b);
    BuiltPlacement(offers, s, b);
    LevelsOfComplete(offers, i);
    var levels := LevelsOf(offers, s, b);
    assert LevelOf(offers[i]) in multiset(levels);
    assert LevelOf(offers[i]) in multiset(SortByPrice(levels));
  }

  /** Every level in a book of the built graph comes from an offer of that arc's pair. */
  lemma BookLevelsFromOffers(offers: seq<Offer>, s: string, b: string, level: Level)
    requires Lookup(Built(offers), s, b).Some?
    requires level in Lookup(Built(offers), s, b).value.book
    ensures exists i :: 0 <= i < |offers| && Selling(offers[i]) == s && Buying(offers[i]) == b && LevelOf(offers[i]) == level
  {
    BuiltPlacement(offers, s, b);
    var levels := LevelsOf(offers, s, b);
    assert level in multiset(SortByPrice(levels));
    assert level in multiset(levels);
    LevelsOfSound(offers, s, b, level);
  }

  // ---------------------------------------------------------------------------
  // Setup

  /** A plain object with insertion-ordered keys: counter assets and their levels. */
  datatype Group = Group(counters: seq<string>, books: map<string, seq<Level>>)

  /** The object for node `s` holds, per counter asset seen so far, the levels read so far. */
  ghost predicate NodeMatches(node: Group, offers: seq<Offer>, s: string) {
    && node.counters == Counters(offers, s)
    && (forall b :: b in node.books <==> b in node.counters)
    && (forall b :: b in node.books ==> node.books[b] == LevelsOf(offers, s, b))
  }

  ghost predicate GroupsMatch(groups: map<string, Group>, offers: seq<Offer>) {
    && groups.Keys == SellingAssets(offers)
    && forall s :: s in groups ==> NodeMatches(groups[s], offers, s)
  }

  /** File a level under counter `b` of a node, creating the counter on first sight. */
  function AddToNode(node: Group, b: string, level: Level): Group {
    var node' := if b in node.books then node else Group(node.counters + [b], node.books[b := []]);
    node'.(books := node'.books[b := node'.books[b] + [level]])
  }

  /** The body of setup's first loop: file the offer under its selling asset, then
      under its buying asset, creating either object on first sight. */
  function AddOffer(groups: map<string, Group>, offer: Offer): map<string, Group> {
    var pair := ToAssetPair(offer);
    var sourceAsset, destAsset := pair.0, pair.1;
    var destNode := if destAsset in groups then groups[destAsset] else Group([], map[]);
    groups[destAsset := AddToNode(destNode, sourceAsset, LevelOf(offer))]
  }

  /** The first loop keeps the groups in line with the offers read so far. */
  lemma AddOfferMatches(groups: map<string, Group>, offers: seq<Offer>, i: nat)
    requires i < |offers|
    requires GroupsMatch(groups, offers[..i])
    ensures GroupsMatch(AddOffer(groups, offers[i]), offers[..i + 1])
  {
    var prefix, o := offers[..i], offers[i];
    var s0 := Selling(o);
    var groups' := AddOffer(groups, o);
    SellingAssetsStep(offers, i);
    var node := if s0 in groups then groups[s0] else Group([], map[]);
    if s0 !in groups {
      EmptyNodeMatches(prefix, s0);
    }
    AddToNodeMatches(node, offers, i);
    forall s | s in groups' ensures NodeMatches(groups'[s], offers[..i + 1], s) {
      if s != s0 {
        OtherNodeMatches(groups[s], offers, i, s);
      }
    }
  }

  /** A node no offer read so far sells starts as an empty object. */
  lemma EmptyNodeMatches(offers: seq<Offer>, s: string)
    requires s !in SellingAssets(offers)
    ensures NodeMatches(Group([], map[]), offers, s)
  {
    forall k | 0 <= k < |offers| ensures Selling(offers[k]) != s {
      assert Selling(offers[k]) in SellingAssets(offers);
    }
    CountersSpec(offers, s);
    var cs := Counters(offers, s);
    assert cs == [] || HasPair(offers, s, cs[0]);
  }

  /** Filing the next offer under its own node keeps that node in line. */
  lemma AddToNodeMatches(node: Group, offers: seq<Offer>, i: nat)
    requires i < |offers|
    requires NodeMatches(node, offers[..i], Selling(offers[i]))
    ensures NodeMatches(AddToNode(node, Buying(offers[i]), LevelOf(offers[i])), offers[..i + 1], Selling(offers[i]))
  {
    var b0 := Buying(offers[i]);
    LevelsStepAll(offers, i);
    OpenCounterMatches(node, offers, i);
    FileLevelMatches(if b0 in node.books then node else Group(node.counters + [b0], node.books[b0 := []]), offers, i);
  }

  /** Opening the book of the next offer's counter, on first sight, lists the counter. */
  lemma OpenCounterMatches(node: Group, offers: seq<Offer>, i: nat)
    requires i < |offers|
    requires NodeMatches(node, offers[..i], Selling(offers[i]))
    ensures var b0 := Buying(offers[i]);
            NodeMatchesBefore(if b0 in node.books then node else Group(node.counters + [b0], node.books[b0 := []]), offers, i)
  {
    var s0, b0 := Selling(offers[i]), Buying(offers[i]);
    CountersStep(offers, i, s0);
    if b0 !in node.books {
      CountersSpec(offers[..i], s0);
      LevelsOfAbsent(offers[..i], s0, b0);
    }
  }

  /** The node after reading offers[..i], with a (possibly empty) book already open
      for the pair of offers[i] and the counters already listing it. */
  ghost predicate NodeMatchesBefore(node: Group, offers: seq<Offer>, i: nat)
    requires i < |offers|
  {
    && node.counters == Counters(offers[..i + 1], Selling(offers[i]))
    && (forall b :: b in node.books <==> b in node.counters)
    && (forall b :: b in node.books ==> node.books[b] == LevelsOf(offers[..i], Selling(offers[i]), b))
  }

  /** Appending the offer's level to its open book completes the step. */
  lemma FileLevelMatches(node: Group, offers: seq<Offer>, i: nat)
    requires i < |offers|
    requires NodeMatchesBefore(node, offers, i)
    requires Buying(offers[i]) in node.books
    requires forall b :: LevelsOf(offers[..i + 1], Selling(offers[i]), b) ==
                        if b == Buying(offers[i]) then LevelsOf(offers[..i], Selling(offers[i]), b) + [LevelOf(offers[i])]
                        else LevelsOf(offers[..i], Selling(offers[i]), b)
    ensures NodeMatches(node.(books := node.books[Buying(offers[i]) := node.books[Buying(offers[i])] + [LevelOf(offers[i])]]),
                        offers[..i + 1], Selling(offers[i]))
  {
  }

  /** The levels of every pair after reading one more offer. */
  lemma LevelsStepAll(offers: seq<Offer>, i: nat)
    requires i < |offers|
    ensures forall b :: LevelsOf(offers[..i + 1], Selling(offers[i]), b) ==
                        if b == Buying(offers[i]) then LevelsOf(offers[..i], Selling(offers[i]), b) + [LevelOf(offers[i])]
                        else LevelsOf(offers[..i], Selling(offers[i]), b)
  {
    forall b ensures LevelsOf(offers[..i + 1], Selling(offers[i]), b) ==
                     if b == Buying(offers[i]) then LevelsOf(offers[..i], Selling(offers[i]), b) + [LevelOf(offers[i])]
                     else LevelsOf(offers[..i], Selling(offers[i]), b) {
      LevelsOfStep(offers, i, Selling(offers[i]), b);
    }
  }

  /** Reading an offer of another node leaves a node's object in line. */
  lemma OtherNodeMatches(node: Group, offers: seq<Offer>, i: nat, s: string)
    requires i < |offers| && s != Selling(offers[i])
    requires NodeMatches(node, offers[..i], s)
    ensures NodeMatches(node, offers[..i + 1], s)
  {
    CountersStep(offers, i, s);
    forall b ensures LevelsOf(offers[..i + 1], s, b) == LevelsOf(offers[..i], s, b) {
      LevelsOfStep(offers, i, s, b);
    }
  }

  lemma SellingAssetsStep(offers: seq<Offer>, i: nat)
    requires i < |offers|
    ensures SellingAssets(offers[..i + 1]) == SellingAssets(offers[..i]) + {Selling(offers[i])}
  {
    var next, prefix := offers[..i + 1], offers[..i];
    forall x | x in SellingAssets(next) ensures x in SellingAssets(prefix) + {Selling(offers[i])} {
      var k :| 0 <= k < |next| && Selling(next[k]) == x;
      if k < i {
        assert prefix[k] == next[k];
      }
    }
    forall x | x in SellingAssets(prefix) ensures x in SellingAssets(next) {
      var k :| 0 <= k < |prefix| && Selling(prefix[k]) == x;
      assert next[k] == prefix[k];
    }
  }

  lemma CountersStep(offers: seq<Offer>, i: nat, s: string)
    requires i < |offers|
    ensures Counters(offers[..i + 1], s) ==
            if Selling(offers[i]) == s && Buying(offers[i]) !in Counters(offers[..i], s)
            then Counters(offers[..i], s) + [Buying(offers[i])]
            else Counters(offers[..i], s)
  {
    assert offers[..i + 1][..i] == offers[..i];
  }

  lemma LevelsOfStep(offers: seq<Offer>, i: nat, s: string, b: string)
    requires i < |offers|
    ensures LevelsOf(offers[..i + 1], s, b) ==
            if Selling(offers[i]) == s && Buying(offers[i]) == b
            then LevelsOf(offers[..i], s, b) + [LevelOf(offers[i])]
            else LevelsOf(offers[..i], s, b)
  {
    assert offers[..i + 1][..i] == offers[..i];
  }

  /** graph.setup: group the offers by selling and then buying asset, sort each
      group by price, sum the amounts into the capacity. */
  method Setup(offers: seq<Offer>) returns (nodes: Graph)
    ensures nodes == Built(offers)
  {
    var groups := GroupOffers(offers);
    nodes := BuildNodes(groups, offers);
  }

  /** setup's first loop: one object per selling asset, holding per buying asset
      the levels in offer order. */
  method GroupOffers(offers: seq<Offer>) returns (groups: map<string, Group>)
    ensures GroupsMatch(groups, offers)
  {
    groups := map[];
    for i := 0 to |offers|
      invariant GroupsMatch(groups, offers[..i])
    {
      AddOfferMatches(groups, offers, i);
      groups := AddOffer(groups, offers[i]);
    }
    assert offers[..|offers|] == offers;
  }

  /** setup's second loop: the arcs of every node. */
  method BuildNodes(groups: map<string, Group>, ghost offers: seq<Offer>) returns (nodes: Graph)
    requires GroupsMatch(groups, offers)
    ensures nodes == Built(offers)
  {
    nodes := map[];
    var todo := groups.Keys;
    while todo != {}
      invariant todo <= groups.Keys
      invariant nodes.Keys == groups.Keys - todo
      invariant forall s :: s in nodes ==> nodes[s] == ArcsOf(offers, s)
    {
      var sourceAsset :| sourceAsset in todo;
      var arcs := BuildArcs(groups[sourceAsset]);
      ArcsOfGroup(groups[sourceAsset], offers, sourceAsset, arcs);
      nodes := nodes[sourceAsset := arcs];
      todo := todo - {sourceAsset};
    }
    BuiltByNodes(nodes, offers);
  }

  /** A graph with a node per selling asset, each holding its specified arcs, is Built. */
  lemma BuiltByNodes(nodes: Graph, offers: seq<Offer>)
    requires nodes.Keys == SellingAssets(offers)
    requires forall s :: s in nodes ==> nodes[s] == ArcsOf(offers, s)
    ensures nodes == Built(offers)
  {
  }

  /** The arcs made from a node's object so far: one per counter, in the object's
      key order, each with that counter's levels sorted by price and summed. */
  ghost predicate ArcsFromGroup(node: Group, arcs: seq<Arc>) {
    && |arcs| <= |node.counters|
    && forall k :: 0 <= k < |arcs| ==>
         node.counters[k] in node.books && arcs[k] == MakeArc(node.counters[k], SortByPrice(node.books[node.counters[k]]))
  }

  /** The body of setup's second loop for one node: sort each group by price and
      sum its amounts into the capacity. */
  method BuildArcs(node: Group) returns (arcs: seq<Arc>)
    requires forall b :: b in node.counters ==> b in node.books
    ensures |arcs| == |node.counters| && ArcsFromGroup(node, arcs)
  {
    arcs := [];
    for j := 0 to |node.counters|
      invariant |arcs| == j && ArcsFromGroup(node, arcs)
    {
      var destAsset := node.counters[j];
      var orderBook := SortByPrice(node.books[destAsset]);
      var capacity := SumAmounts(orderBook);
      ArcsFromGroupAppend(node, arcs, Arc(destAsset, capacity, orderBook));
      arcs := arcs + [Arc(destAsset, capacity, orderBook)];
    }
  }

  lemma ArcsFromGroupAppend(node: Group, arcs: seq<Arc>, arc: Arc)
    requires ArcsFromGroup(node, arcs) && |arcs| < |node.counters|
    requires node.counters[|arcs|] in node.books
    requires arc == MakeArc(node.counters[|arcs|], SortByPrice(node.books[node.counters[|arcs|]]))
    ensures ArcsFromGroup(node, arcs + [arc])
  {
  }

  /** For the object of node `s`, the arcs made from it are the specified ones. */
  lemma ArcsOfGroup(node: Group, offers: seq<Offer>, s: string, arcs: seq<Arc>)
    requires NodeMatches(node, offers, s)
    requires |arcs| == |node.counters| && ArcsFromGroup(node, arcs)
    ensures arcs == ArcsOf(offers, s)
  {
    var expected := ArcsOf(offers, s);
    assert |expected| == |arcs|;
    forall k | 0 <= k < |arcs| ensures arcs[k] == expected[k] {
    }
  }

  /** The capacity loop: the sum of the amounts of a book. */
  method SumAmounts(book: Book) returns (capacity: real)
    ensures capacity == TotalAmount(book)
  {
    capacity := 0.0;
    for k := 0 to |book|
      invariant capacity == TotalAmount(book[..k])
    {
      TotalAmountAppend(book[..k], book[k]);
      assert book[..k + 1] == book[..k] + [book[k]];
      capacity := capacity + book[k].amount;
    }
    assert book[..|book|] == book;
  }

  // ---------------------------------------------------------------------------
  // Update

  /** Array.prototype.splice(index, 1): index -1 counts from the end, so it removes
      the last element. */
  function RemoveAt(arcs: seq<Arc>, index: int): (r: seq<Arc>)
    requires -1 <= index < |arcs|
    ensures |r| == if arcs == [] then 0 else |arcs| - 1
  {
    if arcs == [] then []
    else if 0 <= index then arcs[..index] + arcs[index + 1..]
    else arcs[..|arcs| - 1]
  }

  /**
   * What update does to the graph.  With levels: replace the first arc to
   * `buying` in place, or append the new arc, or create the node with that single
   * arc.  Without levels: remove the arc found for `buying` (the last arc when
   * there is none) and drop the node once it is empty; a missing node makes the
   * source throw, which is None here.
   */
  function ApplyChange(g: Graph, selling: string, buying: string, levels: seq<Level>): (r: Option<Graph>)
    ensures r.None? <==> levels == [] && selling !in g
    ensures r.Some? ==> forall s :: s != selling ==> (s in r.value <==> s in g)
    ensures r.Some? ==> forall s :: s != selling && s in g ==> r.value[s] == g[s]
    ensures r.Some? && levels != [] ==> selling in r.value
  {
    if levels != [] then
      var arc := MakeArc(buying, levels);
      if selling in g then
        var arcs := g[selling];
        var index := FindArc(arcs, buying);
        if index != -1 then Some(g[selling := arcs[index := arc]])
        else Some(g[selling := arcs + [arc]])
      else Some(g[selling := [arc]])
    else if selling !in g then None
    else
      var arcs := g[selling];
      var rest := RemoveAt(arcs, FindArc(arcs, buying));
      if rest == [] then Some(g - {selling}) else Some(g[selling := rest])
  }

  /**
   * Update as intended: deleting a pair that has no arc leaves the graph as it
   * is.  As written (ApplyChange), findIndex yields -1 there and splice(-1, 1)
   * removes the node's last arc, which belongs to another pair, or the source
   * throws when the node itself is missing.
   */
  function ApplyChangeIntended(g: Graph, selling: string, buying: string, levels: seq<Level>): (r: Graph)
    ensures forall s :: s != selling ==> (s in r <==> s in g)
    ensures forall s :: s != selling && s in g ==> r[s] == g[s]
    ensures levels == [] && Lookup(g, selling, buying).None? ==> r == g
    ensures levels != [] || Lookup(g, selling, buying).Some? ==> ApplyChange(g, selling, buying, levels) == Some(r)
  {
    if levels == [] && Lookup(g, selling, buying).None? then g
    else ApplyChange(g, selling, buying, levels).value
  }

  /** The operation update reports. */
  datatype Op = Created | Updated | Deleted

  /** graph.update: build the book and its capacity from the rows, then replace,
      append or delete the arc of (selling, buying); a delete finding no arc
      removes the node's last arc, as splice(-1, 1) does. */
  method Update(graph: Graph, selling: string, buying: string, offers: seq<Level>) returns (next: Option<Graph>, op: Op)
    ensures next == ApplyChange(graph, selling, buying, offers)
    ensures op == Created <==> offers != [] && Lookup(graph, selling, buying).None?
    ensures op == Updated <==> offers != [] && Lookup(graph, selling, buying).Some?
    ensures op == Deleted <==> offers == []
  {
    if |offers| > 0 {
      var capacity := 0.0;
      var orderBook: Book := [];
      for k := 0 to |offers|
        invariant orderBook == offers[..k]
        invariant capacity == TotalAmount(orderBook)
      {
        TotalAmountAppend(orderBook, offers[k]);
        orderBook := orderBook + [offers[k]];
        capacity := capacity + offers[k].amount;
        assert offers[..k + 1] == offers[..k] + [offers[k]];
      }
      assert orderBook == offers;
      var arc := Arc(buying, capacity, orderBook);
      if selling in graph {
        var arcs := graph[selling];
        var index := FindArc(arcs, buying);
        if index != -1 {
          next := Some(graph[selling := arcs[index := arc]]);
          op := Updated;
        } else {
          next := Some(graph[selling := arcs + [arc]]);
          op := Created;
        }
      } else {
        next := Some(graph[selling := [arc]]);
        op := Created;
      }
    } else {
      op := Deleted;
      if selling !in graph {
        next := None;
        return;
      }
      var arcs := graph[selling];
      var index := FindArc(arcs, buying);
      arcs := RemoveAt(arcs, index);
      if |arcs| == 0 {
        next := Some(graph - {selling});
      } else {
        next := Some(graph[selling := arcs]);
      }
    }
  }

  // ---------------------------------------------------------------------------
  // Properties of update

  /** Which old arc sits at each position after a removal. */
  lemma RemoveAtShifts(arcs: seq<Arc>, index: int)
    requires arcs != [] && -1 <= index < |arcs|
    ensures var j, rest := if 0 <= index then index else |arcs| - 1, RemoveAt(arcs, index);
            && (forall i :: 0 <= i < j ==> rest[i] == arcs[i])
            && (forall i :: j <= i < |rest| ==> rest[i] == arcs[i + 1])
  {
  }

  lemma RemoveAtKeepsDistinct(arcs: seq<Arc>, index: int)
    requires DistinctCounters(arcs) && CapacitiesMatch(arcs)
    requires -1 <= index < |arcs|
    ensures DistinctCounters(RemoveAt(arcs, index)) && CapacitiesMatch(RemoveAt(arcs, index))
  {
    if arcs != [] {
      RemoveAtShifts(arcs, index);
    }
  }

  /** Update keeps the graph well-formed. */
  lemma ApplyChangeKeepsWellFormed(g: Graph, selling: string, buying: string, levels: seq<Level>)
    requires WellFormed(g)
    requires ApplyChange(g, selling, buying, levels).Some?
    ensures WellFormed(ApplyChange(g, selling, buying, levels).value)
  {
    if levels == [] {
      var arcs := g[selling];
      RemoveAtKeepsDistinct(arcs, FindArc(arcs, buying));
    }
  }

  /** Replacing an arc by one to the same counter changes only that counter's lookup. */
  lemma ArcToReplace(arcs: seq<Arc>, index: int, arc: Arc, b: string)
    requires DistinctCounters(arcs)
    requires 0 <= index < |arcs| && arcs[index].counter == arc.counter
    ensures ArcTo(arcs[index := arc], b) == if b == arc.counter then Some(arc) else ArcTo(arcs, b)
  {
    var arcs' := arcs[index := arc];
    assert DistinctCounters(arcs');
    if b == arc.counter {
      ArcToUnique(arcs', index);
    } else if FindArc(arcs, b) != -1 {
      ArcToUnique(arcs', FindArc(arcs, b));
    } else {
      assert forall k :: 0 <= k < |arcs'| ==> arcs'[k].counter != b;
    }
  }

  /** Appending an arc to a counter not present changes only that counter's lookup. */
  lemma ArcToAppend(arcs: seq<Arc>, arc: Arc, b: string)
    requires DistinctCounters(arcs)
    requires FindArc(arcs, arc.counter) == -1
    ensures ArcTo(arcs + [arc], b) == if b == arc.counter then Some(arc) else ArcTo(arcs, b)
  {
    var arcs' := arcs + [arc];
    assert DistinctCounters(arcs');
    if b == arc.counter {
      ArcToUnique(arcs', |arcs|);
    } else if FindArc(arcs, b) != -1 {
      ArcToUnique(arcs', FindArc(arcs, b));
    } else {
      assert forall k :: 0 <= k < |arcs'| ==> arcs'[k].counter != b;
    }
  }

  /** Removing the arc at an index changes only the lookup of its counter. */
  lemma ArcToRemove(arcs: seq<Arc>, index: int, b: string)
    requires DistinctCounters(arcs) && CapacitiesMatch(arcs)
    requires 0 <= index < |arcs|
    ensures ArcTo(RemoveAt(arcs, index), b) == if b == arcs[index].counter then None else ArcTo(arcs, b)
  {
    var rest := RemoveAt(arcs, index);
    RemoveAtKeepsDistinct(arcs, index);
    RemoveAtShifts(arcs, index);
    if b == arcs[index].counter {
      assert forall k :: 0 <= k < |rest| ==> rest[k].counter != b;
    } else if FindArc(arcs, b) != -1 {
      var k := FindArc(arcs, b);
      ArcToUnique(rest, if k < index then k else k - 1);
    } else {
      assert forall k :: 0 <= k < |rest| ==> rest[k].counter != b;
    }
  }

  /** On a well-formed graph, update acts on the (node, counter) lookup like a map
      update: the changed pair now has the new arc (or none after a delete of an
      existing arc), and every other pair is looked up as before. */
  lemma ApplyChangeLookup(g: Graph, selling: string, buying: string, levels: seq<Level>, s: string, b: string)
    requires WellFormed(g)
    requires levels != [] || Lookup(g, selling, buying).Some?
    ensures ApplyChange(g, selling, buying, levels).Some?
    ensures Lookup(ApplyChange(g, selling, buying, levels).value, s, b) ==
            if s == selling && b == buying then (if levels != [] then Some(MakeArc(buying, levels)) else None)
            else Lookup(g, s, b)
  {
    if s == selling {
      var arc := MakeArc(buying, levels);
      if levels != [] {
        if selling in g {
          var arcs := g[selling];
          var index := FindArc(arcs, buying);
          if index != -1 {
            ArcToReplace(arcs, index, arc, b);
          } else {
            ArcToAppend(arcs, arc, b);
          }
        }
      } else {
        var arcs := g[selling];
        var index := FindArc(arcs, buying);
        ArcToRemove(arcs, index, b);
      }
    }
  }

  /** Applying the same non-empty change twice is the same as applying it once. */
  lemma ApplyChangeIdempotent(g: Graph, selling: string, buying: string, levels: seq<Level>)
    requires levels != []
    ensures var once := ApplyChange(g, selling, buying, levels);
            once.Some? && ApplyChange(once.value, selling, buying, levels) == once
  {
    var arc := MakeArc(buying, levels);
    var g' := ApplyChange(g, selling, buying, levels).value;
    var arcs' := g'[selling];
    var k: int;
    if selling in g && FindArc(g[selling], buying) != -1 {
      k := FindArc(g[selling], buying);
    } else if selling in g {
      k := |g[selling]|;
    } else {
      k := 0;
    }
    assert arcs'[k] == arc;
    assert forall j :: 0 <= j < k ==> arcs'[j].counter != buying;
    assert FindArc(arcs', buying) == k;
    assert arcs'[k := arc] == arcs';
    assert g'[selling := arcs'] == g';
  }

  /** Deleting the only arc of a node removes the node from the graph. */
  lemma DeleteLastArcRemovesNode(g: Graph, selling: string, buying: string)
    requires selling in g && |g[selling]| == 1
    ensures ApplyChange(g, selling, buying, []) == Some(g - {selling})
  {
  }

  /** Where update puts the arcs of node `selling`: UPDATE replaces the arc at
      findIndex's position, CREATE appends the new arc, and every other arc keeps
      its position (the order the search walks them in). */
  lemma ApplyChangePositions(g: Graph, selling: string, buying: string, levels: seq<Level>)
    requires levels != []
    ensures var before := if selling in g then g[selling] else [];
            var after, i := ApplyChange(g, selling, buying, levels).value[selling], FindArc(before, buying);
            && (i != -1 ==> |after| == |before| && after[i] == MakeArc(buying, levels))
            && (i == -1 ==> |after| == |before| + 1 && after[|before|] == MakeArc(buying, levels))
            && (forall k :: 0 <= k < |before| && k != i ==> after[k] == before[k])
  {
  }

  /** Deleting a pair that has no arc from a node with several arcs removes the
      node's last arc, whatever pair it belongs to. */
  lemma DeleteAbsentArcDropsLast(g: Graph, selling: string, buying: string)
    requires selling in g && |g[selling]| >= 2 && Lookup(g, selling, buying).None?
    ensures ApplyChange(g, selling, buying, []) == Some(g[selling := g[selling][..|g[selling]| - 1]])
  {
    assert FindArc(g[selling], buying) == -1;
  }

  /** The delete of pair (A, D), which has no arc, removes the arc to C, another
      pair's liquidity. */
  lemma DeleteAbsentArcDropsOther()
    ensures var g := map["A" := [MakeArc("B", [Level(1.0, 1.0)]), MakeArc("C", [Level(1.0, 1.0)])]];
            && Lookup(g, "A", "D") == None && Lookup(g, "A", "C").Some?
            && ApplyChange(g, "A", "D", []).Some? && Lookup(ApplyChange(g, "A", "D", []).value, "A", "C") == None
  {
    var g := map["A" := [MakeArc("B", [Level(1.0, 1.0)]), MakeArc("C", [Level(1.0, 1.0)])]];
    assert FindArc(g["A"], "D") == -1;
    assert FindArc(g["A"], "C") == 1;
    var g' := ApplyChange(g, "A", "D", []).value;
    assert g'["A"] == [MakeArc("B", [Level(1.0, 1.0)])];
    assert FindArc(g'["A"], "C") == -1;
  }

  /** The intended update acts on lookups like a map update on every well-formed
      graph: the pair gets the new arc, or none after a delete, and every other
      pair is looked up as before. */
  lemma ApplyChangeIntendedLookup(g: Graph, selling: string, buying: string, levels: seq<Level>, s: string, b: string)
    requires WellFormed(g)
    ensures Lookup(ApplyChangeIntended(g, selling, buying, levels), s, b) ==
            if s == selling && b == buying then (if levels != [] then Some(MakeArc(buying, levels)) else None)
            else Lookup(g, s, b)
  {
    if levels != [] || Lookup(g, selling, buying).Some? {
      ApplyChangeLookup(g, selling, buying, levels, s, b);
    }
  }

  /** The intended update keeps the graph well-formed. */
  lemma ApplyChangeIntendedKeepsWellFormed(g: Graph, selling: string, buying: string, levels: seq<Level>)
    requires WellFormed(g)
    ensures WellFormed(ApplyChangeIntended(g, selling, buying, levels))
  {
    if levels != [] || Lookup(g, selling, buying).Some? {
      ApplyChangeKeepsWellFormed(g, selling, buying, levels);
    }
  }

  /** Deleting an arc that is not there removes the node's last arc instead: here the
      arc to "B" goes, and with it the node, though the arc to "C" was asked for. */
  lemma DeleteAbsentArcRemovesLast()
    ensures var g := map["A" := [MakeArc("B", [Level(1.0, 1.0)])]];
            Lookup(g, "A", "C") == None && ApplyChange(g, "A", "C", []) == Some(map[])
  {
    var g := map["A" := [MakeArc("B", [Level(1.0, 1.0)])]];
    assert FindArc(g["A"], "C") == -1;
    assert g - {"A"} == map[];
  }
}
