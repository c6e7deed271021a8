/**
 * The ledger synchroniser: database notifications about offers collect the
 * asset pairs they touch, a timer then runs the current ledger handler, which
 * is "setup" the first time (build the graph from all offers) and "update"
 * afterwards (re-read the touched pairs when exactly one ledger has closed
 * since the last run, rebuild everything otherwise).
 *
 * The database is two parameters: the snapshot of all offers, and a function
 * from a query to the rows it returns.
 */
module Stellar {
  import opened Wrappers
  import opened Seqs
  import opened Assets
  import opened OrderBook
  import opened LiquidityGraph

  /** A parameterised SQL query: its text and its positional values. */
  datatype Query = Query(text: string, values: seq<Option<string>>)

  const SellingNativeText: string :=
    "SELECT amount, price FROM offers WHERE sellingassettype = '0' AND buyingassetcode = $1 AND buyingissuer = $2 ORDER BY price ASC"
  const BuyingNativeText: string :=
    "SELECT amount, price FROM offers WHERE sellingassetcode = $1 AND sellingissuer = $2 AND buyingassettype = '0' ORDER BY price ASC"
  const CreditPairText: string :=
    "SELECT amount, price FROM offers WHERE sellingassetcode = $1 AND sellingissuer = $2 AND buyingassetcode = $3 AND buyingissuer = $4 ORDER BY price ASC"

  /** stellar's buildQuery: the query for the levels of the offers selling `selling` for `buying`. */
  function BuildQuery(selling: string, buying: string): (q: Query)
    ensures selling == NativeId && buying != NativeId ==>
              q.text == SellingNativeText && q.values == [ToTuple(buying).code, ToTuple(buying).issuer]
    ensures selling != NativeId && buying == NativeId ==>
              q.text == BuyingNativeText && q.values == [ToTuple(selling).code, ToTuple(selling).issuer]
    ensures (selling == NativeId) == (buying == NativeId) ==>
              q.text == CreditPairText &&
              q.values == [ToTuple(selling).code, ToTuple(selling).issuer, ToTuple(buying).code, ToTuple(buying).issuer]
  {
    var from, to := ToTuple(selling), ToTuple(buying);
    if from.kind == Native && to.kind != Native then
      Query(SellingNativeText, [to.code, to.issuer])
    else if from.kind != Native && to.kind == Native then
      Query(BuyingNativeText, [from.code, from.issuer])
    else
      Query(CreditPairText, [from.code, from.issuer, to.code, to.issuer])
  }

  /** The code and issuer of a well-formed identity determine it. */
  lemma CodeIssuerDetermine(s1: string, s2: string)
    requires WellFormedId(s1) && WellFormedId(s2)
    requires ToTuple(s1).code == ToTuple(s2).code && ToTuple(s1).issuer == ToTuple(s2).issuer
    ensures s1 == s2
  {
    IdentityOfParse(s1);
    IdentityOfParse(s2);
    if s1 != NativeId && s2 != NativeId {
      assert ToTuple(s1).kind == CreditTypeFor(ToTuple(s1).code.value);
      assert ToTuple(s2).kind == CreditTypeFor(ToTuple(s2).code.value);
    }
  }

  /** Different pairs of well-formed identities get different queries, so the rows a
      query returns belong to its own pair. */
  lemma BuildQueryInjective(s1: string, b1: string, s2: string, b2: string)
    requires WellFormedId(s1) && WellFormedId(b1) && WellFormedId(s2) && WellFormedId(b2)
    requires BuildQuery(s1, b1) == BuildQuery(s2, b2)
    ensures s1 == s2 && b1 == b2
  {
    var q := BuildQuery(s1, b1);
    if q.text == SellingNativeText {
      assert s1 == NativeId && s2 == NativeId;
      CodeIssuerDetermine(b1, b2);
    } else if q.text == BuyingNativeText {
      assert b1 == NativeId && b2 == NativeId;
      CodeIssuerDetermine(s1, s2);
    } else {
      assert q.values[0] == ToTuple(s1).code == ToTuple(s2).code;
      CodeIssuerDetermine(s1, s2);
      CodeIssuerDetermine(b1, b2);
    }
  }

  /** A touched pair, as offer events report it: buying asset first. */
  datatype Pair = Pair(buying: string, selling: string)

  /** The two ledger handlers. */
  datatype Handler = OnLedgerSetup | OnLedgerUpdate

  /** A notification: a row of the offers table, a ledger header, or anything else. */
  datatype Event = OffersEvent(offer: Offer) | LedgerHeadersEvent(ledgerseq: int) | OtherEvent(table: string)

  /** The pair an offer row touches. */
  function PairOf(offer: Offer): Pair {
    var pair := ToAssetPair(offer);
    Pair(pair.0, pair.1)
  }

  /** Set.prototype.add on an insertion-ordered set. */
  function SetAdd(pairs: seq<Pair>, p: Pair): (r: seq<Pair>)
    ensures NoDup(pairs) ==> NoDup(r)
    ensures p in r && forall q :: q in pairs ==> q in r
    ensures forall q :: q in r ==> q == p || q in pairs
    ensures p in pairs ==> r == pairs
    ensures p !in pairs ==> r == pairs + [p]
  {
    if p in pairs then pairs else pairs + [p]
  }

  /** One ledger has closed since the last run: both ledgers are known and consecutive. */
  predicate Advanced(current: Option<int>, previous: Option<int>) {
    current.Some? && previous.Some? && current.value == previous.value + 1
  }

  /** The levels the database returns for a pair. */
  function LevelsFor(rows: Query -> seq<Level>, p: Pair): seq<Level> {
    rows(BuildQuery(p.selling, p.buying))
  }

  /** Apply every pair's change in turn, as update does it; a change that makes
      update throw aborts the rest. */
  function ApplyPairs(g: Graph, pairs: seq<Pair>, rows: Query -> seq<Level>): Option<Graph>
    decreases |pairs|
  {
    if pairs == [] then Some(g)
    else
      var p := pairs[0];
      match ApplyChange(g, p.selling, p.buying, LevelsFor(rows, p))
      case None => None
      case Some(g') => ApplyPairs(g', pairs[1..], rows)
  }

  /** Applying the pairs keeps the graph well-formed. */
  lemma {:induction false} ApplyPairsKeepsWellFormed(g: Graph, pairs: seq<Pair>, rows: Query -> seq<Level>)
    requires WellFormed(g)
    requires ApplyPairs(g, pairs, rows).Some?
    ensures WellFormed(ApplyPairs(g, pairs, rows).value)
    decreases |pairs|
  {
    if pairs != [] {
      var p := pairs[0];
      ApplyChangeKeepsWellFormed(g, p.selling, p.buying, LevelsFor(rows, p));
      ApplyPairsKeepsWellFormed(ApplyChange(g, p.selling, p.buying, LevelsFor(rows, p)).value, pairs[1..], rows);
    }
  }

  /** A node no pending pair sells is left exactly as it was. */
  lemma {:induction false} ApplyPairsOtherNodes(g: Graph, pairs: seq<Pair>, rows: Query -> seq<Level>, s: string)
    requires ApplyPairs(g, pairs, rows).Some?
    requires forall i :: 0 <= i < |pairs| ==> pairs[i].selling != s
    ensures var g' := ApplyPairs(g, pairs, rows).value;
            (s in g' <==> s in g) && (s in g ==> g'[s] == g[s])
    decreases |pairs|
  {
    if pairs != [] {
      var p := pairs[0];
      var next := ApplyChange(g, p.selling, p.buying, LevelsFor(rows, p)).value;
      ApplyPairsOtherNodes(next, pairs[1..], rows, s);
    }
  }

  /** After the pending pairs are applied, each of them looks up exactly the arc its
      rows give (none when there are no rows), and every other pair is looked up
      as before, provided every pending pair without rows still has its arc: one
      that has none makes update remove another pair's arc (see
      LiquidityGraph.DeleteAbsentArcDropsLast). */
  lemma {:induction false} ApplyPairsLookup(g: Graph, pairs: seq<Pair>, rows: Query -> seq<Level>, s: string, b: string)
    requires WellFormed(g) && NoDup(pairs)
    requires forall p :: p in pairs && LevelsFor(rows, p) == [] ==> Lookup(g, p.selling, p.buying).Some?
    ensures ApplyPairs(g, pairs, rows).Some?
    ensures Lookup(ApplyPairs(g, pairs, rows).value, s, b) ==
            if Pair(b, s) in pairs then
              (if LevelsFor(rows, Pair(b, s)) != [] then Some(MakeArc(b, LevelsFor(rows, Pair(b, s)))) else None)
            else Lookup(g, s, b)
    decreases |pairs|
  {
    if pairs != [] {
      var p := pairs[0];
      var levels := LevelsFor(rows, p);
      ApplyChangeLookup(g, p.selling, p.buying, levels, s, b);
      ApplyChangeKeepsWellFormed(g, p.selling, p.buying, levels);
      var next := ApplyChange(g, p.selling, p.buying, levels).value;
      assert NoDup(pairs[1..]) && p !in pairs[1..] by {
        forall i, j | 0 <= i < j < |pairs[1..]| ensures pairs[1..][i] != pairs[1..][j] {
          assert pairs[1..][i] == pairs[i + 1] && pairs[1..][j] == pairs[j + 1];
        }
        forall i | 0 <= i < |pairs[1..]| ensures pairs[1..][i] != p {
          assert pairs[1..][i] == pairs[i + 1];
        }
      }
      forall q | q in pairs[1..] && LevelsFor(rows, q) == [] ensures Lookup(next, q.selling, q.buying).Some? {
        ApplyChangeLookup(g, p.selling, p.buying, levels, q.selling, q.buying);
      }
      ApplyPairsLookup(next, pairs[1..], rows, s, b);
      assert Pair(b, s) in pairs <==> Pair(b, s) == p || Pair(b, s) in pairs[1..] by {
        assert pairs == [p] + pairs[1..];
      }
    }
  }

  /** Applying pairs one after another is applying their concatenation. */
  lemma {:induction false} ApplyPairsStep(g: Graph, pairs: seq<Pair>, i: nat, rows: Query -> seq<Level>)
    requires i < |pairs|
    ensures ApplyPairs(g, pairs[i..], rows) ==
            match ApplyChange(g, pairs[i].selling, pairs[i].buying, LevelsFor(rows, pairs[i]))
            case None => None
            case Some(g') => ApplyPairs(g', pairs[i + 1..], rows)
  {
    assert pairs[i..][0] == pairs[i] && pairs[i..][1..] == pairs[i + 1..];
  }

  /** The module state of the synchroniser. */
  class Synchronizer {
    var nodes: Graph
    /** The handler the next timer will run. */
    var onLedger: Handler
    var currentLedger: Option<int>
    var previousLedger: Option<int>
    /** The pairs touched since the last incremental update, in insertion order. */
    var modifiedPairs: seq<Pair>
    /** The pending timer and the handler it captured, if any. */
    var timer: Option<Handler>
    /** Whether the first ledger has been processed (init's promise resolved). */
    var ready: bool

    ghost predicate Valid()
      reads this
    {
      NoDup(modifiedPairs) && WellFormed(nodes)
    }

    /** init: the first ledger run is the setup run; nothing is known yet. */
    constructor ()
      ensures Valid()
      ensures nodes == map[] && onLedger == OnLedgerSetup && currentLedger == None && previousLedger == None
      ensures modifiedPairs == [] && timer == None && !ready
    {
      nodes := map[];
      onLedger := OnLedgerSetup;
      currentLedger := None;
      previousLedger := None;
      modifiedPairs := [];
      timer := None;
      ready := false;
    }

    /** onTrigger: an offers event records its pair and restarts the timer with the
        current handler; a ledger header records the ledger number and schedules
        nothing; anything else is ignored. */
    method OnTrigger(evt: Event)
      requires Valid()
      modifies this
      ensures Valid()
      ensures nodes == old(nodes) && onLedger == old(onLedger) && previousLedger == old(previousLedger) && ready == old(ready)
      ensures evt.OffersEvent? ==>
                && modifiedPairs == SetAdd(old(modifiedPairs), PairOf(evt.offer))
                && timer == Some(onLedger)
                && currentLedger == old(currentLedger)
      ensures evt.LedgerHeadersEvent? ==>
                && currentLedger == Some(evt.ledgerseq)
                && modifiedPairs == old(modifiedPairs) && timer == old(timer)
      ensures evt.OtherEvent? ==>
                currentLedger == old(currentLedger) && modifiedPairs == old(modifiedPairs) && timer == old(timer)
    {
      match evt
      case OffersEvent(offer) =>
        timer := None;
        modifiedPairs := SetAdd(modifiedPairs, PairOf(offer));
        timer := Some(onLedger);
      case LedgerHeadersEvent(ledgerseq) =>
        currentLedger := Some(ledgerseq);
      case OtherEvent(_) =>
    }

    /** onLedgerSetup: build the graph from the snapshot, switch to update mode,
        remember the ledger and signal readiness. */
    method LedgerSetup(snapshot: seq<Offer>)
      requires Valid()
      modifies this
      ensures Valid()
      ensures nodes == Built(snapshot) && BooksSorted(nodes)
      ensures onLedger == OnLedgerUpdate && previousLedger == old(currentLedger) && ready
      ensures currentLedger == old(currentLedger) && modifiedPairs == old(modifiedPairs) && timer == old(timer)
    {
      BuiltWellFormed(snapshot);
      nodes := Setup(snapshot);
      onLedger := OnLedgerUpdate;
      previousLedger := currentLedger;
      ready := true;
    }

    /**
     * onLedgerUpdate: when exactly one ledger has closed, take and clear the
     * pending pairs and apply each one's rows to a copy of the graph, in order;
     * otherwise rebuild from the snapshot and keep the pairs.  Either way the
     * current ledger becomes the previous one, unless an update threw, which
     * leaves the graph and the previous ledger as they were (the pairs are
     * already cleared).
     */
    method LedgerUpdate(snapshot: seq<Offer>, rows: Query -> seq<Level>)
      requires Valid()
      modifies this
      ensures Valid()
      ensures onLedger == old(onLedger) && currentLedger == old(currentLedger) && timer == old(timer) && ready == old(ready)
      ensures Advanced(old(currentLedger), old(previousLedger)) ==>
                && modifiedPairs == []
                && var applied := ApplyPairs(old(nodes), old(modifiedPairs), rows);
                   && (applied.Some? ==> nodes == applied.value && previousLedger == currentLedger)
                   && (applied.None? ==> nodes == old(nodes) && previousLedger == old(previousLedger))
      ensures !Advanced(old(currentLedger), old(previousLedger)) ==>
                && nodes == Built(snapshot)
                && modifiedPairs == old(modifiedPairs)
                && previousLedger == currentLedger
    {
      if Advanced(currentLedger, previousLedger) {
        var pairs := modifiedPairs;
        modifiedPairs := [];
        var next := nodes;
        for i := 0 to |pairs|
          invariant WellFormed(next) && WellFormed(nodes)
          invariant nodes == old(nodes) && modifiedPairs == [] && previousLedger == old(previousLedger)
          invariant onLedger == old(onLedger) && currentLedger == old(currentLedger) && timer == old(timer) && ready == old(ready)
          invariant ApplyPairs(next, pairs[i..], rows) == ApplyPairs(nodes, pairs, rows)
        {
          var pair := pairs[i];
          var query := BuildQuery(pair.selling, pair.buying);
          ApplyPairsStep(next, pairs, i, rows);
          var result, op := Update(next, pair.selling, pair.buying, rows(query));
          if result.None? {
            return;
          }
          ApplyChangeKeepsWellFormed(next, pair.selling, pair.buying, rows(query));
          next := result.value;
        }
        assert pairs[|pairs|..] == [];
        nodes := next;
      } else {
        BuiltWellFormed(snapshot);
        nodes := Setup(snapshot);
      }
      previousLedger := currentLedger;
    }

    /** The timer fires: it runs the handler captured when it was set. */
    method FireTimer(snapshot: seq<Offer>, rows: Query -> seq<Level>)
      requires Valid() && timer.Some?
      modifies this
      ensures Valid() && timer == None && currentLedger == old(currentLedger)
      ensures old(timer.value) == OnLedgerSetup ==>
                && nodes == Built(snapshot) && onLedger == OnLedgerUpdate && previousLedger == old(currentLedger) && ready
                && modifiedPairs == old(modifiedPairs)
      ensures old(timer.value) == OnLedgerUpdate ==> onLedger == old(onLedger) && ready == old(ready)
      ensures old(timer.value) == OnLedgerUpdate && Advanced(old(currentLedger), old(previousLedger)) ==>
                && modifiedPairs == []
                && var applied := ApplyPairs(old(nodes), old(modifiedPairs), rows);
                   && (applied.Some? ==> nodes == applied.value && previousLedger == currentLedger)
                   && (applied.None? ==> nodes == old(nodes) && previousLedger == old(previousLedger))
      ensures old(timer.value) == OnLedgerUpdate && !Advanced(old(currentLedger), old(previousLedger)) ==>
                && nodes == Built(snapshot)
                && modifiedPairs == old(modifiedPairs)
                && previousLedger == currentLedger
    {
      var handler := timer.value;
      timer := None;
      if handler == OnLedgerSetup {
        LedgerSetup(snapshot);
      } else {
        LedgerUpdate(snapshot, rows);
      }
    }
  }
}
