/**
 * The path finder: a depth-bounded depth-first search backwards from the
 * destination asset over the liquidity graph.  Walking an arc from node X to
 * counter Y prices the amount of X still needed in Y through the arc's book;
 * a shared stack holds the assets on the current walk, a table of lowest
 * costs prunes walks that reach an asset no cheaper than before, and every
 * target asset reached files the amount and the hops in between.
 */
module PathFinder {
  import opened Seqs
  import Assets
  import opened OrderBook
  import opened LiquidityGraph

  /** The stack holds at most this many assets; a walk has at most one more. */
  const MaxLengthMinusOne: nat := 7 - 1

  /** A recorded path: what the target asset must pay, and the intermediate
      assets from the target's side to the destination's side. */
  datatype Entry = Entry(amount: real, hops: seq<string>)

  /** One point of a walk: an asset and the amount of it that is needed there. */
  datatype Frame = Frame(asset: string, amount: real)

  /** path-finder's tradeSell: the cost in counter units of `amountToSell` units
      bought through `book`, which is exactly the order-book buy walk. */
  method TradeSell(amountToSell: real, book: Book) returns (amountToBuy: real)
    ensures amountToBuy == BuyCost(book, amountToSell)
  {
    amountToBuy := 0.0;
    var remaining := amountToSell;
    for i := 0 to |book|
      invariant amountToBuy + BuyCost(book[i..], remaining) == BuyCost(book, amountToSell)
    {
      var level := book[i];
      if remaining > level.amount {
        amountToBuy := amountToBuy + Worth(level);
        remaining := remaining - level.amount;
        assert book[i..][1..] == book[i + 1..];
      } else {
        amountToBuy := amountToBuy + remaining * level.price;
        return;
      }
    }
  }

  /** The assets of a walk. */
  function AssetsOf(frames: seq<Frame>): (r: seq<string>)
    ensures |r| == |frames|
    ensures forall i :: 0 <= i < |frames| ==> r[i] == frames[i].asset
  {
    if frames == [] then [] else [frames[0].asset] + AssetsOf(frames[1..])
  }

  /** The search may go from `f` to `f2`: some arc of f's node leads to f2's asset,
      has the capacity for f's amount, and prices it at f2's amount. */
  ghost predicate Step(g: Graph, f: Frame, f2: Frame) {
    f.asset in g &&
    exists arc :: arc in g[f.asset] && arc.counter == f2.asset && arc.capacity >= f.amount &&
                  f2.amount == BuyCost(arc.book, f.amount)
  }

  /** Every consecutive pair of frames is a step. */
  ghost predicate Route(g: Graph, frames: seq<Frame>) {
    forall i :: 0 <= i < |frames| - 1 ==> Step(g, frames[i], frames[i + 1])
  }

  /** `route` justifies entry `e` filed under target `t`: it starts at the
      destination with the requested amount, ends at `t` with e's amount, repeats
      no asset, is within the length bound, and e's hops are its inner assets
      from the target's side. */
  ghost predicate Witness(g: Graph, root: string, rootAmount: real, t: string, e: Entry, route: seq<Frame>) {
    && 1 <= |route| <= MaxLengthMinusOne + 1
    && route[0] == Frame(root, rootAmount)
    && Route(g, route)
    && NoDup(AssetsOf(route))
    && route[|route| - 1] == Frame(t, e.amount)
    && e.hops == Reverse(Middle(AssetsOf(route)))
  }

  /** The conditions under which every amount the search meets is positive: a
      positive request over a well-formed graph of positive prices and
      non-negative amounts. */
  predicate Positive(g: Graph, amount: real) {
    && amount > 0.0
    && WellFormed(g)
    && forall s, i :: s in g && 0 <= i < |g[s]| ==>
         NonNegativeAmounts(g[s][i].book) && PositivePrices(g[s][i].book)
  }

  /** Each entry is cheaper than the previous one, unless the previous one cost 0
      (a stored 0 reads as "not seen yet"). */
  predicate Descending(entries: seq<Entry>) {
    forall i :: 0 <= i < |entries| - 1 ==>
      entries[i].amount == 0.0 || entries[i + 1].amount < entries[i].amount
  }

  predicate StrictlyDecreasing(entries: seq<Entry>) {
    forall i, j :: 0 <= i < j < |entries| ==> entries[j].amount < entries[i].amount
  }

  /** A step from a positive amount over a positive graph needs a positive amount. */
  lemma StepPositive(g: Graph, amount: real, f: Frame, f2: Frame)
    requires Positive(g, amount) && Step(g, f, f2) && f.amount > 0.0
    ensures f2.amount > 0.0
  {
    var arc :| arc in g[f.asset] && arc.counter == f2.asset && arc.capacity >= f.amount &&
               f2.amount == BuyCost(arc.book, f.amount);
    var i :| 0 <= i < |g[f.asset]| && g[f.asset][i] == arc;
    BuyPositive(arc.book, f.amount);
  }

  /** Every amount on a route from a positive request is positive. */
  lemma {:induction false} RoutePositive(g: Graph, route: seq<Frame>, n: nat)
    requires |route| >= 1 && Positive(g, route[0].amount) && Route(g, route)
    requires n < |route|
    ensures route[n].amount > 0.0
  {
    if n > 0 {
      RoutePositive(g, route, n - 1);
      StepPositive(g, route[0].amount, route[n - 1], route[n]);
    }
  }

  /** What a witnessed entry's hops are: no repeats, neither the destination nor the
      target among them, at most five of them. */
  lemma WitnessHops(g: Graph, root: string, rootAmount: real, t: string, e: Entry, route: seq<Frame>)
    requires Witness(g, root, rootAmount, t, e, route)
    ensures NoDup(e.hops) && root !in e.hops && t !in e.hops
    ensures |e.hops| <= MaxLengthMinusOne - 1
  {
    var assets := AssetsOf(route);
    MiddleExcludesEnds(assets);
    ReverseNoDup(Middle(assets));
    ReverseKeepsElements(Middle(assets));
  }

  /** With positive amounts, each target's entries strictly decrease. */
  lemma {:induction false} DescendingStrictly(entries: seq<Entry>)
    requires Descending(entries)
    requires forall i :: 0 <= i < |entries| ==> entries[i].amount > 0.0
    ensures StrictlyDecreasing(entries)
  {
    if |entries| > 1 {
      var rest := entries[1..];
      assert Descending(rest) by {
        forall i | 0 <= i < |rest| - 1 ensures rest[i].amount == 0.0 || rest[i + 1].amount < rest[i].amount {
          assert rest[i] == entries[i + 1] && rest[i + 1] == entries[i + 2];
        }
      }
      DescendingStrictly(rest);
      forall i, j | 0 <= i < j < |entries| ensures entries[j].amount < entries[i].amount {
        if 0 < i {
          assert entries[i] == rest[i - 1] && entries[j] == rest[j - 1];
        } else if 1 < j {
          assert entries[1] == rest[0] && entries[j] == rest[j - 1];
        }
      }
    }
  }

  /** Entries were only appended. */
  ghost predicate Grows(before: map<string, seq<Entry>>, after: map<string, seq<Entry>>) {
    forall t :: t in before ==> t in after && before[t] <= after[t]
  }

  /** Costs are kept once set, and never rise while every cost is positive. */
  ghost predicate Lowers(before: map<string, real>, after: map<string, real>, positive: bool) {
    && before.Keys <= after.Keys
    && (positive ==> forall a :: a in before ==> after[a] <= before[a])
  }

  lemma GrowsTransitive(t1: map<string, seq<Entry>>, t2: map<string, seq<Entry>>, t3: map<string, seq<Entry>>)
    requires Grows(t1, t2) && Grows(t2, t3)
    ensures Grows(t1, t3)
  {
    forall t | t in t1 ensures t1[t] <= t3[t] {
      assert t1[t] == t2[t][..|t1[t]|] && t2[t] == t3[t][..|t2[t]|];
      assert t1[t] == t3[t][..|t1[t]|];
    }
  }

  /** Appending an entry under one key only grows the table. */
  lemma GrowsByAppend(table: map<string, seq<Entry>>, t: string, e: Entry)
    requires t in table
    ensures Grows(table, table[t := table[t] + [e]])
  {
    assert table[t] == (table[t] + [e])[..|table[t]|];
  }

  lemma LowersTransitive(c1: map<string, real>, c2: map<string, real>, c3: map<string, real>, positive: bool)
    requires Lowers(c1, c2, positive) && Lowers(c2, c3, positive)
    ensures Lowers(c1, c3, positive)
  {
  }

  /** The stack is a route from the destination within the length bound, and every
      asset on it has a cost. */
  ghost predicate StackOk(g: Graph, root: string, rootAmount: real, path: seq<string>, frames: seq<Frame>,
                          costs: map<string, real>) {
    && |frames| <= MaxLengthMinusOne
    && path == AssetsOf(frames)
    && NoDup(path)
    && (frames != [] ==> frames[0] == Frame(root, rootAmount))
    && Route(g, frames)
    && (forall a :: a in path ==> a in costs)
    && (Positive(g, rootAmount) ==> forall i :: 0 <= i < |frames| ==> frames[i].amount > 0.0)
  }

  /** One list per target, each entry justified by the route recorded beside it. */
  ghost predicate TableOk(g: Graph, root: string, rootAmount: real, targets: set<string>,
                          paths: map<string, seq<Entry>>, routes: map<string, seq<seq<Frame>>>) {
    && paths.Keys == targets
    && routes.Keys == targets
    && (forall t :: t in targets ==> |routes[t]| == |paths[t]|)
    && (forall t, i :: t in targets && 0 <= i < |paths[t]| ==>
          0 <= i < |routes[t]| && Witness(g, root, rootAmount, t, paths[t][i], routes[t][i]))
  }

  /** A target has entries exactly when it has a cost, which is its last entry's;
      entries descend; under Positive every cost and entry is positive. */
  ghost predicate CostsOk(g: Graph, rootAmount: real, targets: set<string>,
                          costs: map<string, real>, paths: map<string, seq<Entry>>) {
    && (forall t :: t in targets ==> t in paths && (t in costs <==> paths[t] != []))
    && (forall t :: t in targets && t in costs ==> paths[t] != [] && costs[t] == paths[t][|paths[t]| - 1].amount)
    && (forall t :: t in targets ==> Descending(paths[t]))
    && (Positive(g, rootAmount) ==> forall a :: a in costs ==> costs[a] > 0.0)
    && (Positive(g, rootAmount) ==> forall t, i :: t in targets && 0 <= i < |paths[t]| ==> paths[t][i].amount > 0.0)
  }

  /** The walk extended by `f` is still a route. */
  lemma ExtendRoute(g: Graph, frames: seq<Frame>, f: Frame)
    requires Route(g, frames)
    requires frames != [] ==> Step(g, frames[|frames| - 1], f)
    ensures Route(g, frames + [f])
  {
    var r := frames + [f];
    forall i | 0 <= i < |r| - 1 ensures Step(g, r[i], r[i + 1]) {
      assert r[i] == frames[i];
    }
  }

  /** Popping the stack keeps it a route from the destination. */
  lemma StackPop(g: Graph, root: string, rootAmount: real, path: seq<string>, frames: seq<Frame>,
                 a: string, f: Frame, costs: map<string, real>)
    requires StackOk(g, root, rootAmount, path + [a], frames + [f], costs)
    ensures StackOk(g, root, rootAmount, path, frames, costs)
  {
    var path', frames' := path + [a], frames + [f];
    assert forall i :: 0 <= i < |frames| ==> frames[i] == frames'[i];
    assert forall i :: 0 <= i < |path| ==> path[i] == path'[i];
  }

  /** Pushing a reachable asset that has a cost keeps the stack a route from the destination. */
  lemma StackPush(g: Graph, root: string, rootAmount: real, path: seq<string>, frames: seq<Frame>, f: Frame,
                  costs: map<string, real>, path': seq<string>, frames': seq<Frame>)
    requires StackOk(g, root, rootAmount, path, frames, costs)
    requires |path| < MaxLengthMinusOne && f.asset !in path && f.asset in costs
    requires path == [] ==> f == Frame(root, rootAmount)
    requires path != [] ==> |frames| > 0 && Step(g, frames[|frames| - 1], f)
    requires Positive(g, rootAmount) ==> f.amount > 0.0
    requires path' == path + [f.asset] && frames' == frames + [f]
    ensures StackOk(g, root, rootAmount, path', frames', costs)
  {
    ExtendRoute(g, frames, f);
    assert AssetsOf(frames') == path';
  }

  /** The entry a visit records is justified by the stack extended with the visited frame. */
  lemma VisitWitness(g: Graph, root: string, rootAmount: real, path: seq<string>, frames: seq<Frame>,
                     costs: map<string, real>, asset: string, amountIn: real)
    requires StackOk(g, root, rootAmount, path, frames, costs)
    requires asset !in path
    requires path == [] ==> asset == root && amountIn == rootAmount
    requires path != [] ==> Step(g, frames[|frames| - 1], Frame(asset, amountIn))
    ensures Witness(g, root, rootAmount, asset, Entry(amountIn, Reverse(Tail(path))), frames + [Frame(asset, amountIn)])
  {
    var route := frames + [Frame(asset, amountIn)];
    ExtendRoute(g, frames, Frame(asset, amountIn));
    MiddleOfAppend(path, asset);
    assert AssetsOf(route) == path + [asset];
    assert NoDup(path + [asset]);
  }

  /** Visiting lowers the asset's cost and files the entry: the table stays justified. */
  lemma VisitKeepsTable(g: Graph, root: string, rootAmount: real, targets: set<string>,
                        paths: map<string, seq<Entry>>, routes: map<string, seq<seq<Frame>>>,
                        asset: string, e: Entry, route: seq<Frame>)
    requires TableOk(g, root, rootAmount, targets, paths, routes)
    requires asset in targets && Witness(g, root, rootAmount, asset, e, route)
    ensures TableOk(g, root, rootAmount, targets, paths[asset := paths[asset] + [e]], routes[asset := routes[asset] + [route]])
  {
    var paths', routes' := paths[asset := paths[asset] + [e]], routes[asset := routes[asset] + [route]];
    forall t, i | t in targets && 0 <= i < |paths'[t]|
      ensures 0 <= i < |routes'[t]| && Witness(g, root, rootAmount, t, paths'[t][i], routes'[t][i])
    {
      if t != asset || i < |paths[t]| {
        assert paths'[t][i] == paths[t][i] && routes'[t][i] == routes[t][i];
      }
    }
  }

  /** Lowering the asset's cost, and filing the entry when it is a target, keeps the
      costs in line with the table. */
  lemma VisitKeepsCosts(g: Graph, rootAmount: real, targets: set<string>,
                        costs: map<string, real>, paths: map<string, seq<Entry>>, asset: string, e: Entry)
    requires CostsOk(g, rootAmount, targets, costs, paths)
    requires asset !in costs || costs[asset] == 0.0 || e.amount < costs[asset]
    requires Positive(g, rootAmount) ==> e.amount > 0.0
    ensures asset !in targets ==> CostsOk(g, rootAmount, targets, costs[asset := e.amount], paths)
    ensures asset in targets ==>
              CostsOk(g, rootAmount, targets, costs[asset := e.amount], paths[asset := paths[asset] + [e]])
  {
    if asset in targets {
      VisitTargetKeepsCosts(g, rootAmount, targets, costs, paths, asset, e);
    } else {
      VisitOtherKeepsCosts(g, rootAmount, targets, costs, paths, asset, e);
    }
  }

  lemma VisitTargetKeepsCosts(g: Graph, rootAmount: real, targets: set<string>,
                              costs: map<string, real>, paths: map<string, seq<Entry>>, asset: string, e: Entry)
    requires CostsOk(g, rootAmount, targets, costs, paths) && asset in targets
    requires asset !in costs || costs[asset] == 0.0 || e.amount < costs[asset]
    requires Positive(g, rootAmount) ==> e.amount > 0.0
    ensures CostsOk(g, rootAmount, targets, costs[asset := e.amount], paths[asset := paths[asset] + [e]])
  {
    var entries := paths[asset];
    assert entries != [] ==> costs[asset] == entries[|entries| - 1].amount;
    DescendingAppend(entries, e);
  }

  lemma VisitOtherKeepsCosts(g: Graph, rootAmount: real, targets: set<string>,
                             costs: map<string, real>, paths: map<string, seq<Entry>>, asset: string, e: Entry)
    requires CostsOk(g, rootAmount, targets, costs, paths) && asset !in targets
    requires Positive(g, rootAmount) ==> e.amount > 0.0
    ensures CostsOk(g, rootAmount, targets, costs[asset := e.amount], paths)
  {
  }

  /** An entry cheaper than the last one (or following a 0) keeps a list descending. */
  lemma DescendingAppend(entries: seq<Entry>, e: Entry)
    requires Descending(entries)
    requires entries != [] ==> entries[|entries| - 1].amount == 0.0 || e.amount < entries[|entries| - 1].amount
    ensures Descending(entries + [e])
  {
    var entries' := entries + [e];
    forall i | 0 <= i < |entries'| - 1 ensures entries'[i].amount == 0.0 || entries'[i + 1].amount < entries'[i].amount {
      assert entries'[i] == entries[i];
      if i + 1 < |entries| {
        assert entries'[i + 1] == entries[i + 1];
      }
    }
  }

  /** The search has been through `arc` at `amountIn`: unless the arc lacks the
      capacity for that amount or leads back onto the stack, its counter has a
      cost, and under Positive that cost is at most the arc's price for the amount. */
  ghost predicate Searched(costs: map<string, real>, positive: bool, onStack: seq<string>, amountIn: real, arc: Arc) {
    arc.capacity >= amountIn && arc.counter !in onStack ==> Reached(costs, positive, arc.counter, BuyCost(arc.book, amountIn))
  }

  /** Every arc of `arcs` has been searched at `amountIn`. */
  ghost predicate AllSearched(costs: map<string, real>, positive: bool, onStack: seq<string>, amountIn: real, arcs: seq<Arc>) {
    forall arc :: arc in arcs ==> Searched(costs, positive, onStack, amountIn, arc)
  }

  /** The asset has a cost, and under Positive one no higher than `amount`. */
  ghost predicate Reached(costs: map<string, real>, positive: bool, asset: string, amount: real) {
    asset in costs && (positive ==> costs[asset] <= amount)
  }

  /** The first k arcs have been searched. */
  ghost predicate SearchedPrefix(costs: map<string, real>, positive: bool, onStack: seq<string>, amountIn: real,
                                 arcs: seq<Arc>, k: nat) {
    forall j :: 0 <= j < k && j < |arcs| ==> Searched(costs, positive, onStack, amountIn, arcs[j])
  }

  /** Costs that only fall keep the arcs searched, and one more searched arc extends the prefix. */
  lemma SearchedExtend(costs: map<string, real>, costs': map<string, real>, positive: bool, onStack: seq<string>,
                       amountIn: real, arcs: seq<Arc>, k: nat)
    requires Lowers(costs, costs', positive)
    requires SearchedPrefix(costs, positive, onStack, amountIn, arcs, k)
    requires k < |arcs| && Searched(costs', positive, onStack, amountIn, arcs[k])
    ensures SearchedPrefix(costs', positive, onStack, amountIn, arcs, k + 1)
  {
  }

  /** Once every arc has been searched, so has every member of the node. */
  lemma SearchedAll(costs: map<string, real>, positive: bool, onStack: seq<string>, amountIn: real, arcs: seq<Arc>)
    requires SearchedPrefix(costs, positive, onStack, amountIn, arcs, |arcs|)
    ensures AllSearched(costs, positive, onStack, amountIn, arcs)
  {
    forall arc | arc in arcs ensures Searched(costs, positive, onStack, amountIn, arc) {
      var j :| 0 <= j < |arcs| && arcs[j] == arc;
    }
  }

  /** Some route justifies entry `e` under target `t`. */
  ghost predicate Justified(g: Graph, root: string, rootAmount: real, t: string, e: Entry) {
    exists route :: Witness(g, root, rootAmount, t, e, route)
  }

  /** Every entry of the table is justified by some route. */
  ghost predicate AllJustified(g: Graph, root: string, rootAmount: real, paths: map<string, seq<Entry>>) {
    forall t, i :: t in paths && 0 <= i < |paths[t]| ==> Justified(g, root, rootAmount, t, paths[t][i])
  }

  lemma TableJustified(g: Graph, root: string, rootAmount: real, targets: set<string>,
                       paths: map<string, seq<Entry>>, routes: map<string, seq<seq<Frame>>>)
    requires TableOk(g, root, rootAmount, targets, paths, routes)
    ensures AllJustified(g, root, rootAmount, paths)
  {
    forall t, i | t in paths && 0 <= i < |paths[t]|
      ensures Justified(g, root, rootAmount, t, paths[t][i])
    {
      assert Witness(g, root, rootAmount, t, paths[t][i], routes[t][i]);
    }
  }

  /** A visit keeps the stack, the table and the costs in line. */
  lemma VisitKeepsValid(g: Graph, root: string, rootAmount: real, targets: set<string>,
                        path: seq<string>, frames: seq<Frame>, costs: map<string, real>,
                        paths: map<string, seq<Entry>>, routes: map<string, seq<seq<Frame>>>,
                        asset: string, amountIn: real, costs': map<string, real>,
                        paths': map<string, seq<Entry>>, routes': map<string, seq<seq<Frame>>>)
    requires StackOk(g, root, rootAmount, path, frames, costs)
    requires TableOk(g, root, rootAmount, targets, paths, routes)
    requires CostsOk(g, rootAmount, targets, costs, paths)
    requires asset !in path
    requires path == [] ==> asset == root && amountIn == rootAmount
    requires path != [] ==> |frames| > 0 && Step(g, frames[|frames| - 1], Frame(asset, amountIn))
    requires asset !in costs || costs[asset] == 0.0 || amountIn < costs[asset]
    requires costs' == costs[asset := amountIn]
    requires asset in paths ==>
               && paths' == paths[asset := paths[asset] + [Entry(amountIn, Reverse(Tail(path)))]]
               && routes' == routes[asset := routes[asset] + [frames + [Frame(asset, amountIn)]]]
    requires asset !in paths ==> paths' == paths && routes' == routes
    ensures StackOk(g, root, rootAmount, path, frames, costs')
    ensures TableOk(g, root, rootAmount, targets, paths', routes')
    ensures CostsOk(g, rootAmount, targets, costs', paths')
  {
    if Positive(g, rootAmount) && path != [] {
      RoutePositive(g, frames, |frames| - 1);
      StepPositive(g, rootAmount, frames[|frames| - 1], Frame(asset, amountIn));
    }
    var e := Entry(amountIn, Reverse(Tail(path)));
    VisitKeepsCosts(g, rootAmount, targets, costs, paths, asset, e);
    if asset in paths {
      VisitWitness(g, root, rootAmount, path, frames, costs, asset, amountIn);
      VisitKeepsTable(g, root, rootAmount, targets, paths, routes, asset, e, frames + [Frame(asset, amountIn)]);
    }
  }

  /** The state of one run of findPaths: the stack, the lowest costs, the table. */
  class Search {
    const graph: Graph
    const root: string
    const rootAmount: real
    const targets: set<string>

    /** The stack of assets on the current walk, destination first. */
    var path: seq<string>
    /** The stack with the amount needed at each asset. */
    ghost var frames: seq<Frame>
    var lowestCost: map<string, real>
    var paths: map<string, seq<Entry>>
    /** For each entry of `paths`, the walk that recorded it. */
    ghost var routes: map<string, seq<seq<Frame>>>

    ghost predicate Valid()
      reads this
    {
      && StackOk(graph, root, rootAmount, path, frames, lowestCost)
      && TableOk(graph, root, rootAmount, targets, paths, routes)
      && CostsOk(graph, rootAmount, targets, lowestCost, paths)
    }

    /** A fresh search: empty stack, no costs, an empty list per target. */
    constructor (graph: Graph, root: string, rootAmount: real, table: map<string, seq<Entry>>)
      requires forall t :: t in table ==> table[t] == []
      ensures Valid()
      ensures this.graph == graph && this.root == root && this.rootAmount == rootAmount
      ensures targets == table.Keys && paths == table && path == [] && lowestCost == map[]
    {
      this.graph := graph;
      this.root := root;
      this.rootAmount := rootAmount;
      this.targets := table.Keys;
      path := [];
      frames := [];
      lowestCost := map[];
      paths := table;
      routes := map t | t in table :: [];
    }

    /** The asset may be visited at `amountIn` from the top of the stack. */
    ghost predicate Reachable(asset: string, amountIn: real)
      reads this
    {
      && (path == [] ==> asset == root && amountIn == rootAmount)
      && (path != [] ==> |frames| > 0 && Step(graph, frames[|frames| - 1], Frame(asset, amountIn)))
    }

    /** Lower the asset's cost to `amountIn` and, when it is a target, file the entry
        (the reversed stack without its root) with the walk that reached it. */
    method Visit(asset: string, amountIn: real)
      requires routes.Keys == paths.Keys
      modifies this
      ensures path == old(path) && frames == old(frames)
      ensures lowestCost == old(lowestCost)[asset := amountIn]
      ensures asset in old(paths) ==>
                && paths == old(paths)[asset := old(paths)[asset] + [Entry(amountIn, Reverse(Tail(path)))]]
                && routes == old(routes)[asset := old(routes)[asset] + [frames + [Frame(asset, amountIn)]]]
      ensures asset !in old(paths) ==> paths == old(paths) && routes == old(routes)
    {
      lowestCost := lowestCost[asset := amountIn];
      if asset in paths {
        paths := paths[asset := paths[asset] + [Entry(amountIn, Reverse(Tail(path)))]];
        routes := routes[asset := routes[asset] + [frames + [Frame(asset, amountIn)]]];
      }
    }

    /**
     * The recursive find: give up on an asset already on the stack, or reached
     * before at no smaller cost (a cost of 0 counts as not reached); otherwise
     * lower its cost, record it when it is a target and, below the length
     * bound, search onwards from its node.
     */
    method Find(asset: string, amountIn: real)
      requires Valid() && Reachable(asset, amountIn)
      modifies this
      decreases MaxLengthMinusOne - |path|, 2
      ensures Valid()
      ensures path == old(path) && frames == old(frames)
      ensures Grows(old(paths), paths)
      ensures Lowers(old(lowestCost), lowestCost, Positive(graph, rootAmount))
      ensures var pruned := asset in path || (asset in old(lowestCost) && old(lowestCost)[asset] != 0.0 && amountIn >= old(lowestCost)[asset]);
              && (pruned ==> lowestCost == old(lowestCost) && paths == old(paths))
              && (!pruned && asset in old(paths) ==> old(paths)[asset] + [Entry(amountIn, Reverse(Tail(path)))] <= paths[asset])
              && (!pruned && |path| < MaxLengthMinusOne && asset in graph ==>
                    AllSearched(lowestCost, Positive(graph, rootAmount), path + [asset], amountIn, graph[asset]))
    ensures asset !in path ==> Reached(lowestCost, Positive(graph, rootAmount), asset, amountIn)
    {
      if asset in path {
        return;
      }
      var cost := if asset in lowestCost then lowestCost[asset] else 0.0;
      if cost == 0.0 || amountIn < cost {
        ghost var costs0, table0, witnesses0 := lowestCost, paths, routes;
        Visit(asset, amountIn);
        VisitKeepsValid(graph, root, rootAmount, targets, path, frames, costs0, table0, witnesses0,
                        asset, amountIn, lowestCost, paths, routes);
        if asset in old(paths) {
          GrowsByAppend(old(paths), asset, Entry(amountIn, Reverse(Tail(path))));
        }
      } else {
        return;
      }
      ghost var costs, table := lowestCost, paths;
      Continue(asset, amountIn);
      GrowsTransitive(old(paths), table, paths);
      LowersTransitive(old(lowestCost), costs, lowestCost, Positive(graph, rootAmount));
    }

    /** After a visit: stop at the length bound or at an asset without a node,
        otherwise fan out. */
    method Continue(asset: string, amountIn: real)
      requires Valid() && Reachable(asset, amountIn)
      requires asset !in path && asset in lowestCost
      requires Positive(graph, rootAmount) ==> amountIn > 0.0
      modifies this
      decreases MaxLengthMinusOne - |path|, 1
      ensures Valid()
      ensures path == old(path) && frames == old(frames)
      ensures Grows(old(paths), paths)
      ensures Lowers(old(lowestCost), lowestCost, Positive(graph, rootAmount))
      ensures |path| < MaxLengthMinusOne && asset in graph ==>
                AllSearched(lowestCost, Positive(graph, rootAmount), path + [asset], amountIn, graph[asset])
    {
      if |path| < MaxLengthMinusOne && asset in graph {
        FanOut(asset, amountIn);
      }
    }

    /** Push the asset, search every arc of its node with the capacity for the
        amount, at the price the arc's book asks, and pop it again. */
    method FanOut(asset: string, amountIn: real)
      requires Valid() && Reachable(asset, amountIn)
      requires asset !in path && |path| < MaxLengthMinusOne && asset in graph
      requires asset in lowestCost
      requires Positive(graph, rootAmount) ==> amountIn > 0.0
      modifies this
      decreases MaxLengthMinusOne - |path|, 0
      ensures Valid()
      ensures path == old(path) && frames == old(frames)
      ensures Grows(old(paths), paths)
      ensures Lowers(old(lowestCost), lowestCost, Positive(graph, rootAmount))
      ensures AllSearched(lowestCost, Positive(graph, rootAmount), path + [asset], amountIn, graph[asset])
    {
      var arcs := graph[asset];
      ghost var outer, outerFrames := path, frames;
      var pushed := path + [asset];
      ghost var pushedFrames := frames + [Frame(asset, amountIn)];
      StackPush(graph, root, rootAmount, outer, outerFrames, Frame(asset, amountIn), lowestCost, pushed, pushedFrames);
      path, frames := pushed, pushedFrames;
      for k := 0 to |arcs|
        invariant Valid()
        invariant path == outer + [asset] && frames == outerFrames + [Frame(asset, amountIn)]
        invariant Grows(old(paths), paths)
        invariant Lowers(old(lowestCost), lowestCost, Positive(graph, rootAmount))
        invariant SearchedPrefix(lowestCost, Positive(graph, rootAmount), pushed, amountIn, arcs, k)
      {
        ghost var costs, table := lowestCost, paths;
        Follow(asset, amountIn, arcs[k]);
        GrowsTransitive(old(paths), table, paths);
        LowersTransitive(old(lowestCost), costs, lowestCost, Positive(graph, rootAmount));
        SearchedExtend(costs, lowestCost, Positive(graph, rootAmount), pushed, amountIn, arcs, k);
      }
      SearchedAll(lowestCost, Positive(graph, rootAmount), pushed, amountIn, arcs);
      var popped := path[..|path| - 1];
      assert popped == outer;
      StackPop(graph, root, rootAmount, outer, outerFrames, asset, Frame(asset, amountIn), lowestCost);
      path, frames := popped, outerFrames;
    }

    /** One arc of the node on top of the stack: when it has the capacity for the
        amount, price the amount through its book and search from its counter. */
    method Follow(asset: string, amountIn: real, arc: Arc)
      requires Valid() && path != [] && |frames| == |path| && frames[|frames| - 1] == Frame(asset, amountIn)
      requires asset in graph && arc in graph[asset]
      modifies this
      decreases MaxLengthMinusOne - |path|, 3
      ensures Valid()
      ensures path == old(path) && frames == old(frames)
      ensures Grows(old(paths), paths)
      ensures Lowers(old(lowestCost), lowestCost, Positive(graph, rootAmount))
      ensures Searched(lowestCost, Positive(graph, rootAmount), path, amountIn, arc)
    {
      if arc.capacity >= amountIn {
        var amountOut := TradeSell(amountIn, arc.book);
        Find(arc.counter, amountOut);
      }
    }
  }

  /** A target one arc away from the destination is found: when the arc has the
      capacity for the requested amount, the target has an entry, and under
      Positive its cheapest one costs at most the arc's price. */
  ghost predicate OneHopFound(graph: Graph, destAsset: string, destAmount: real, paths: map<string, seq<Entry>>, arc: Arc) {
    arc.capacity >= destAmount && arc.counter != destAsset && arc.counter in paths ==>
      && paths[arc.counter] != []
      && (Positive(graph, destAmount) ==>
            paths[arc.counter][|paths[arc.counter]| - 1].amount <= BuyCost(arc.book, destAmount))
  }

  /** Every arc of the destination's node that the search has been through from
      the destination alone leads to a found target. */
  lemma OneHopsFound(graph: Graph, destAsset: string, destAmount: real, targets: set<string>,
                     costs: map<string, real>, paths: map<string, seq<Entry>>, onStack: seq<string>)
    requires destAsset in graph && onStack == [destAsset]
    requires CostsOk(graph, destAmount, targets, costs, paths) && paths.Keys == targets
    requires AllSearched(costs, Positive(graph, destAmount), onStack, destAmount, graph[destAsset])
    ensures forall arc :: arc in graph[destAsset] ==> OneHopFound(graph, destAsset, destAmount, paths, arc)
  {
  }

  /**
   * path-finder's findPaths: the paths from each target asset to `destAmount`
   * of `destAsset`, each with what the target must pay.  Asking for "native"
   * from a single target short-cuts to the destination amount and no hops.
   */
  method FindPaths(graph: Graph, targetAssets: seq<string>, destAsset: string, destAmount: real)
    returns (paths: map<string, seq<Entry>>)
    ensures destAsset == Assets.NativeId && |targetAssets| == 1 ==>
              paths == map[Assets.NativeId := [Entry(destAmount, [])]]
    ensures !(destAsset == Assets.NativeId && |targetAssets| == 1) ==>
              && (forall t :: t in paths <==> t in targetAssets)
              && AllJustified(graph, destAsset, destAmount, paths)
              && (forall t :: t in paths ==> Descending(paths[t]))
              && (destAsset in targetAssets ==> paths[destAsset] != [] && paths[destAsset][0] == Entry(destAmount, []))
              && (Positive(graph, destAmount) ==> forall t :: t in paths ==> StrictlyDecreasing(paths[t]))
              && (destAsset in graph ==> forall arc :: arc in graph[destAsset] ==> OneHopFound(graph, destAsset, destAmount, paths, arc))
  {
    if destAsset == Assets.NativeId && |targetAssets| == 1 {
      return map[Assets.NativeId := [Entry(destAmount, [])]];
    }
    var table: map<string, seq<Entry>> := map[];
    for i := 0 to |targetAssets|
      invariant forall t :: t in table <==> t in targetAssets[..i]
      invariant forall t :: t in table ==> table[t] == []
    {
      table := table[targetAssets[i] := []];
    }
    assert targetAssets[..|targetAssets|] == targetAssets;
    var search := new Search(graph, destAsset, destAmount, table);
    search.Find(destAsset, destAmount);
    paths := search.paths;
    if destAsset in graph {
      OneHopsFound(graph, destAsset, destAmount, search.targets, search.lowestCost, paths, search.path + [destAsset]);
    }
    TableJustified(graph, destAsset, destAmount, search.targets, paths, search.routes);
    if Positive(graph, destAmount) {
      forall t | t in paths ensures StrictlyDecreasing(paths[t]) {
        DescendingStrictly(paths[t]);
      }
    }
  }

  /** The hops of every path findPaths returns repeat no asset, leave out the
      destination and the target itself, and number at most five. */
  lemma FoundHops(graph: Graph, destAsset: string, destAmount: real, paths: map<string, seq<Entry>>, t: string, i: nat)
    requires AllJustified(graph, destAsset, destAmount, paths)
    requires t in paths && i < |paths[t]|
    ensures var e := paths[t][i];
            NoDup(e.hops) && destAsset !in e.hops && t !in e.hops && |e.hops| <= 5
  {
    var route :| Witness(graph, destAsset, destAmount, t, paths[t][i], route);
    WitnessHops(graph, destAsset, destAmount, t, paths[t][i], route);
  }
}
