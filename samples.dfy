/** The value-level view of the price history: an ordered sequence of
    (date, closing price) samples, and the two parallel sequences that
    `to_arrays` produces from it. Dates and prices are opaque type
    parameters: nothing here ever computes with them. */
module Samples {

  /** The dates of the samples, in order. */
  function Dates<D, P>(s: seq<(D, P)>): (r: seq<D>)
    ensures |r| == |s|
    ensures forall i :: 0 <= i < |s| ==> r[i] == s[i].0
  {
    if s == [] then [] else [s[0].0] + Dates(s[1..])
  }

  /** The prices of the samples, in order. */
  function Prices<D, P>(s: seq<(D, P)>): (r: seq<P>)
    ensures |r| == |s|
    ensures forall i :: 0 <= i < |s| ==> r[i] == s[i].1
  {
    if s == [] then [] else [s[0].1] + Prices(s[1..])
  }

  /** Pairs two parallel sequences back into samples; the inverse of
      taking Dates and Prices. */
  function Zip<D, P>(dates: seq<D>, prices: seq<P>): (r: seq<(D, P)>)
    requires |dates| == |prices|
    ensures |r| == |dates|
    ensures forall i :: 0 <= i < |r| ==> r[i] == (dates[i], prices[i])
  {
    if dates == [] then [] else [(dates[0], prices[0])] + Zip(dates[1..], prices[1..])
  }

  /** The two parallel sequences lose nothing: pairing them up again gives
      back exactly the samples, in the same order. */
  lemma UnzipZip<D, P>(s: seq<(D, P)>)
    ensures Zip(Dates(s), Prices(s)) == s
  {
  }

  /** And conversely: splitting paired-up sequences gives back the inputs. */
  lemma ZipUnzip<D, P>(dates: seq<D>, prices: seq<P>)
    requires |dates| == |prices|
    ensures Dates(Zip(dates, prices)) == dates
    ensures Prices(Zip(dates, prices)) == prices
  {
  }

  /** Appending one sample extends each parallel sequence by exactly that
      sample's date and price and leaves the earlier entries as a prefix. */
  lemma ArraysAfterAppend<D, P>(s: seq<(D, P)>, date: D, price: P)
    ensures Dates(s + [(date, price)]) == Dates(s) + [date]
    ensures Prices(s + [(date, price)]) == Prices(s) + [price]
  {
  }
}
