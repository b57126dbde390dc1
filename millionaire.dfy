/** The price-history buffer of the stock predictor: a hand-rolled singly
    linked list of (date, closing price) nodes, filled in fetch order and
    read back as two parallel sequences. */
module Millionaire {
  import opened Samples

  /** One sample of the history. The date and the price are set when the node
      is made and never written again; only the `next` link changes. */
  class Node<D, P> {
    const date: D
    const price: P
    var next: Node?<D, P>

    constructor (date: D, price: P)
      ensures this.date == date && this.price == price
      ensures next == null
    {
      this.date := date;
      this.price := price;
      next := null;
    }
  }

  class StockPriceList<D, P> {
    var head: Node?<D, P>

    // public view: the samples in chain order
    ghost var Contents: seq<(D, P)>
    // the nodes of the chain, from head to tail
    ghost var Nodes: seq<Node<D, P>>
    // every object the list is made of
    ghost var Repr: set<object>

    /** The chain starting at `head` visits exactly `Nodes`, in order, each
        node once, and ends in null after the last one; node k holds sample k. */
    ghost predicate Valid()
      reads this, Repr
      ensures Valid() ==> this in Repr
    {
      this in Repr &&
      |Nodes| == |Contents| &&
      (forall i :: 0 <= i < |Nodes| ==> Nodes[i] in Repr) &&
      (forall i, j :: 0 <= i < j < |Nodes| ==> Nodes[i] != Nodes[j]) &&
      head == (if Nodes == [] then null else Nodes[0]) &&
      (forall i :: 0 <= i < |Nodes| - 1 ==> Nodes[i].next == Nodes[i + 1]) &&
      (Nodes != [] ==> Nodes[|Nodes| - 1].next == null) &&
      (forall i :: 0 <= i < |Nodes| ==> Contents[i] == (Nodes[i].date, Nodes[i].price))
    }

    /** The node reached from `n` by following `next` k times (or null once
        the chain has ended). */
    ghost function Follow(n: Node?<D, P>, k: nat): Node?<D, P>
      requires Valid() && (n == null || n in Nodes)
      reads this, Repr
      decreases k
    {
      if k == 0 || n == null then n
      else
        var i :| 0 <= i < |Nodes| && Nodes[i] == n;
        assert n.next == NodeAt(i + 1);
        Follow(n.next, k - 1)
    }

    /** The k-th node of the chain, null just past its end. */
    ghost function NodeAt(k: nat): Node?<D, P>
      reads this
    {
      if k < |Nodes| then Nodes[k] else null
    }

    lemma {:induction false} FollowFrom(i: nat, k: nat)
      requires Valid() && i + k <= |Nodes|
      ensures Follow(NodeAt(i), k) == NodeAt(i + k)
      decreases k
    {
      if k > 0 {
        assert NodeAt(i) == Nodes[i] && Nodes[i].next == NodeAt(i + 1);
        FollowFrom(i + 1, k - 1);
      }
    }

    /** The chain from `head` is finite and acyclic: following `next` from
        `head` reaches the k-th node after k steps, null after |Nodes| steps,
        and never visits the same node twice before that. */
    lemma ChainIsFiniteAndAcyclic()
      requires Valid()
      ensures Follow(head, |Nodes|) == null
      ensures forall k :: 0 <= k < |Nodes| ==> Follow(head, k) == Nodes[k]
      ensures forall i, j :: 0 <= i < j <= |Nodes| ==> Follow(head, i) != Follow(head, j)
    {
      forall k | 0 <= k <= |Nodes| ensures Follow(head, k) == NodeAt(k) {
        FollowFrom(0, k);
      }
    }

    /** The walk in `append` stops exactly at the last node: a node of the
        chain has no successor if and only if it is the tail. */
    lemma StopsAtTail(i: nat)
      requires Valid() && i < |Nodes|
      ensures Nodes[i].next == null <==> i == |Nodes| - 1
    {
      if i + 1 < |Nodes| {
        var succ: Node<D, P> := Nodes[i + 1];
        assert Nodes[i].next == succ;
      }
    }

    /** A fresh list has no head and holds no samples. */
    constructor ()
      ensures Valid() && fresh(Repr)
      ensures head == null && Contents == [] && Nodes == []
    {
      head := null;
      Contents := [];
      Nodes := [];
      Repr := {this};
    }

    /** Links a new node holding (date, price) after the current tail, or
        makes it the head when the list is empty. */
    method Append(date: D, price: P)
      requires Valid()
      modifies Repr
      ensures Valid() && fresh(Repr - old(Repr))
      ensures Contents == old(Contents) + [(date, price)]
      ensures |Nodes| == old(|Nodes|) + 1 && Nodes[..old(|Nodes|)] == old(Nodes)
      ensures fresh(Nodes[old(|Nodes|)])
      ensures old(head) == null ==> head == Nodes[0] && head.next == null
      ensures old(head) != null ==> head == old(head)
    {
      var node := new Node(date, price);
      if head == null {
        head := node;
        Nodes := [node];
        Contents := [(date, price)];
        Repr := Repr + {node};
        return;
      }
      var current := head;
      ghost var i := 0;
      while current.next != null
        invariant 0 <= i < |Nodes| && current == Nodes[i]
        decreases |Nodes| - i
      {
        assert current.next == Nodes[i + 1];
        current := current.next;
        i := i + 1;
      }
      StopsAtTail(i);
      current.next := node;
      Nodes := Nodes + [node];
      Contents := Contents + [(date, price)];
      Repr := Repr + {node};
    }

    /** Walks the chain with a moving pointer and copies the dates and the
        prices into two parallel sequences, in chain order. Writes nothing. */
    method ToArrays() returns (dates: seq<D>, prices: seq<P>)
      requires Valid()
      ensures |dates| == |prices| == |Nodes|
      ensures dates == Dates(Contents) && prices == Prices(Contents)
    {
      dates, prices := [], [];
      var current := head;
      ghost var i := 0;
      while current != null
        invariant 0 <= i <= |Nodes|
        invariant current == NodeAt(i)
        invariant |dates| == |prices| == i
        invariant forall k :: 0 <= k < i ==> dates[k] == Contents[k].0 && prices[k] == Contents[k].1
        decreases |Nodes| - i
      {
        dates := dates + [current.date];
        prices := prices + [current.price];
        current := current.next;
        i := i + 1;
      }
    }
  }

  /** What the market-data provider handed back: the rows of the history in
      chronological order, or the failure it reported. */
  datatype History<D, P> = Fetched(rows: seq<(D, P)>) | FetchFailed(message: string)

  /** The session state that owns the current price history. */
  class StockPredictor<D, P> {
    var stockData: StockPriceList<D, P>

    constructor ()
      ensures stockData.Valid() && fresh(stockData.Repr)
      ensures stockData.Contents == []
    {
      stockData := new StockPriceList();
    }

    /** Replaces the history with a fresh list holding exactly the fetched
        rows, in order; on a failed fetch keeps the previous list. */
    method FetchStockData(history: History<D, P>) returns (ok: bool)
      modifies this
      ensures ok <==> history.Fetched?
      ensures ok ==> stockData.Valid() && fresh(stockData.Repr) && stockData.Contents == history.rows
      ensures !ok ==> stockData == old(stockData)
    {
      match history
      case FetchFailed(_) =>
        ok := false;
      case Fetched(rows) =>
        stockData := new StockPriceList();
        for i := 0 to |rows|
          invariant stockData.Valid() && fresh(stockData.Repr)
          invariant stockData.Contents == rows[..i]
        {
          stockData.Append(rows[i].0, rows[i].1);
        }
        ok := true;
    }
  }

  /** A fetch followed by reading the history back: the parallel sequences
      are exactly the dates and the prices of the fetched rows, in order. */
  method HistoryArrays<D, P>(rows: seq<(D, P)>) returns (dates: seq<D>, prices: seq<P>)
    ensures |dates| == |prices| == |rows|
    ensures forall k :: 0 <= k < |rows| ==> rows[k] == (dates[k], prices[k])
  {
    var predictor := new StockPredictor<D, P>();
    var ok := predictor.FetchStockData(Fetched(rows));
    dates, prices := predictor.stockData.ToArrays();
  }
}
