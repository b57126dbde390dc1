# Stock price history buffer: a Dafny model

PredictIT's `millionaire.py` is a desktop stock predictor. It keeps the
fetched price history in a hand-rolled singly linked list, `StockPriceList`.
Each `Node` holds one trading day's date, its closing price and a `next`
link. `append` walks from `head` to the tail and links a new node there.
`to_arrays` walks the chain with a moving pointer and copies the dates and
prices into two parallel sequences. Every fetch that gets the history back
replaces the list with a fresh empty one and then appends the fetched rows
in the order they arrive.

This project models that buffer in imperative Dafny:

- `samples.dfy` (module `Samples`) holds the value-level view. A history is
  a `seq<(D, P)>`, and `Dates` and `Prices` are its two parallel
  projections. `Zip` is their inverse, used only to state that the split
  loses nothing.
- `millionaire.dfy` (module `Millionaire`) models the objects themselves.
  `Node` is a class with a mutable `next` field. `StockPriceList` is a class
  with a `head` field and ghost `Contents`, `Nodes` and `Repr`. Its `Valid()`
  ties the pointer chain to those ghost fields: `head` is the first node, each
  node links to the next one, the last node links to null, no node appears
  twice, and node k holds sample k. `Append` and `ToArrays` are pointer walks
  with loop invariants. `StockPredictor` keeps only its `stockData` field.
  `FetchStockData` is the list-building loop of `fetch_stock_data`.

Dates and prices are type parameters. The list never computes with them.
In Python a `Node` is always truthy, because it defines neither `__bool__`
nor `__len__`. So `if not self.head`, `while current.next` and
`while current` are null tests, and they are modelled that way.

`to_arrays` on an empty list returns two empty arrays and raises nothing
(millionaire.py:33-41), and the model does the same. `append` walks the whole
chain on every call (millionaire.py:28-30), and the model keeps that walk.

## Model

| member | source | states |
|---|---|---|
| `Millionaire.Node.constructor` | millionaire.py:14-17 | a new node holds the given date and price, and its `next` is null |
| `Millionaire.StockPriceList.constructor` | millionaire.py:20-21 | a new list is valid, has no head and holds no samples |
| `Millionaire.StockPriceList.Append` | millionaire.py:23-31 | the list stays valid and gains exactly one sample, `(date, price)`, at the end; the earlier samples and their node objects remain as an unchanged prefix; the new node is freshly allocated; on an empty list the new node becomes the head and its `next` is null; otherwise the head is unchanged; only the list's own objects are written |
| `Millionaire.StockPriceList.StopsAtTail` | millionaire.py:28-30 | the tail walk of `append` stops exactly at the last node: a node of the chain has a null `next` if and only if it is the tail |
| `Millionaire.StockPriceList.FollowFrom` | millionaire.py:28-30 | following `next` k times from node i of the chain reaches node i+k, or null exactly at the end |
| `Millionaire.StockPriceList.ChainIsFiniteAndAcyclic` | millionaire.py:36-40 | from `head`, k steps reach the k-th node, \|Nodes\| steps reach null, and no node is visited twice: the chain the walks in `append` and `to_arrays` follow is finite and acyclic |
| `Millionaire.StockPriceList.ToArrays` | millionaire.py:33-41 | returns two sequences whose lengths both equal the number of nodes in the chain; they hold the dates and the prices of the samples in insertion order; the method has no modifies clause, so it writes neither `head` nor any `next` |
| `Samples.Dates` | millionaire.py:34-40 | the date sequence has one entry per sample, and entry i is the date of sample i |
| `Samples.Prices` | millionaire.py:34-40 | the price sequence has one entry per sample, and entry i is the price of sample i |
| `Samples.UnzipZip` | millionaire.py:33-41 | the two parallel sequences lose nothing: zipping them back together gives exactly the original samples, in order |
| `Samples.ZipUnzip` | millionaire.py:33-41 | the converse: splitting zipped sequences gives back the same dates and prices |
| `Samples.ArraysAfterAppend` | millionaire.py:23-41 | appending one sample extends the dates by exactly its date and the prices by exactly its price, and the earlier entries stay as a prefix |
| `Millionaire.StockPredictor.constructor` | millionaire.py:45 | the predictor starts with a valid, empty price list |
| `Millionaire.StockPredictor.FetchStockData` | millionaire.py:79-91 | a successful fetch replaces the history with a fresh valid list whose contents are exactly the fetched rows, in order, so no earlier sample survives, and it returns true; a failed fetch returns false and keeps the previous list |
| `Millionaire.HistoryArrays` | millionaire.py:84-86 | round trip: after the fetch loop appends rows r1..rn to a fresh list, `to_arrays` returns n dates and n prices, and position k pairs back to exactly rk |

## Left out

- The tkinter GUI is not modelled: window setup, widgets, the results text box, `run` and `mainloop` (millionaire.py:46-77, 139-160). It is user-interface plumbing.
- The network fetch through `yf.Ticker(symbol).history(period="1y")` and its error dialog are not modelled. `FetchStockData` takes the fetch's outcome as a `History` parameter instead. The outcome is either the rows in iteration order or a failure message.
- Millionaire.StockPredictor.FetchStockData: treats the fetch as all-or-nothing. In the source, an exception raised while iterating the rows leaves a partly filled list behind. The model has no such mid-loop failure, because row iteration happens inside the external library.
- `predict_prices` (millionaire.py:93-116) is not modelled. It is floating-point numerics delegated to scikit-learn and numpy/pandas. One `MinMaxScaler` is refit on the prices before it transforms the future indices, so its behaviour has no clean specification.
- `plot_data` (millionaire.py:118-137) is matplotlib rendering and is not modelled.
- The percent-change computation and the summary text (millionaire.py:148-154) are not modelled. They are float division and display text.
- The `np.array` conversion at millionaire.py:41 is not modelled. `ToArrays` returns Dafny sequences.
- Node dates and prices are `const` fields. The source never reassigns them after `Node.__init__`.
