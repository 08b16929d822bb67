// Sequences laid end to end, and the iterator that hands one out item by item. The converter
// first collects every string of a file in one pass and then draws them again in a second one.
module Pieces {
  import opened Wrappers

  function Flat<T>(parts: seq<seq<T>>): seq<T> {
    if parts == [] then [] else Flat(parts[..|parts| - 1]) + parts[|parts| - 1]
  }

  lemma FlatNext<T>(parts: seq<seq<T>>, n: nat)
    requires n < |parts|
    ensures Flat(parts[..n + 1]) == Flat(parts[..n]) + parts[n]
  {
    assert parts[..n + 1][..n] == parts[..n];
  }

  // The items of part `n` are where a reader that has drawn all earlier parts goes on reading.
  // Appending the next part to what has been gathered behind `before`.
  lemma FlatGrows<T>(before: seq<T>, parts: seq<seq<T>>, n: nat)
    requires n < |parts|
    ensures before + Flat(parts[..n]) + parts[n] == before + Flat(parts[..n + 1])
  {
    FlatNext(parts, n);
  }

  lemma FlatAll<T>(parts: seq<seq<T>>)
    ensures Flat(parts[..|parts|]) == Flat(parts)
  {
    assert parts[..|parts|] == parts;
  }

  lemma {:induction false} FlatSlice<T>(parts: seq<seq<T>>, n: nat)
    requires n < |parts|
    ensures Flat(parts[..n + 1]) == Flat(parts[..n]) + parts[n] <= Flat(parts)
    ensures Flat(parts)[|Flat(parts[..n])|..|Flat(parts[..n + 1])|] == parts[n]
    decreases |parts|
  {
    FlatNext(parts, n);
    var rest := parts[..|parts| - 1];
    if n == |parts| - 1 {
      assert parts[..n + 1] == parts;
    } else {
      FlatSlice(rest, n);
      assert rest[..n] == parts[..n] && rest[..n + 1] == parts[..n + 1];
      FlatNext(parts, |parts| - 1);
      assert parts[..|parts|] == parts;
      assert Flat(rest) <= Flat(parts);
    }
  }

  class Cursor<T> {
    const items: seq<T>
    var next: nat

    constructor (items: seq<T>)
      ensures this.items == items && next == 0
    {
      this.items := items;
      next := 0;
    }

    method Next() returns (item: Option<T>)
      modifies this
      ensures old(next) < |items| ==> item == Some(items[old(next)]) && next == old(next) + 1
      ensures old(next) >= |items| ==> item == None && next == old(next)
    {
      if next < |items| {
        item := Some(items[next]);
        next := next + 1;
      } else {
        item := None;
      }
    }
  }
}
