/** The priority list of backend/service/base/InformedSearch.py (`insert_ordered`)
    and its copy in backend/service/InformedSearch.py: a list of frontier entries
    kept in non-decreasing order of their priority `v1`. An entry names a
    search-tree node by its index in the search's arena of nodes. */
module OrderedLists {
  import opened Costs

  datatype Entry = Entry(v1: Cost, node: nat)

  predicate SortedByKey(list: seq<Entry>)
  {
    forall i, j :: 0 <= i < j < |list| ==> Le(list[i].v1, list[j].v1)
  }

  /** The index of the first entry whose priority is strictly above `e`'s, or
      the length when there is none: where `insert_ordered` puts `e`. */
  function InsertPosition(list: seq<Entry>, e: Entry): (p: nat)
    ensures p <= |list|
    ensures forall q :: 0 <= q < p ==> Le(list[q].v1, e.v1)
    ensures p < |list| ==> Less(e.v1, list[p].v1)
    decreases |list|
  {
    if list == [] then 0
    else if Less(e.v1, list[0].v1) then 0
    else 1 + InsertPosition(list[1..], e)
  }

  /** `insert_ordered`: the loop over the list with `insert(i, node)` at the
      first strictly larger priority, and `append` when the loop runs out.
      The caller's list is updated in place in the source; here the updated
      list is returned and the caller assigns it back. */
  method InsertOrdered(list: seq<Entry>, e: Entry) returns (r: seq<Entry>)
    ensures r == list[..InsertPosition(list, e)] + [e] + list[InsertPosition(list, e)..]
  {
    for i := 0 to |list|
      invariant forall q :: 0 <= q < i ==> Le(list[q].v1, e.v1)
      invariant InsertPosition(list, e) >= i
    {
      InsertPositionAt(list, e, i);
      if Less(e.v1, list[i].v1) {
        return list[..i] + [e] + list[i..];
      }
    }
    r := list + [e];
  }

  /** Scanning reaches index `i` only past entries not above `e`. */
  lemma {:induction false} InsertPositionAt(list: seq<Entry>, e: Entry, i: nat)
    requires i < |list| && InsertPosition(list, e) >= i
    ensures InsertPosition(list, e) == i <==> Less(e.v1, list[i].v1)
    decreases i
  {
    if i > 0 {
      InsertPositionAt(list[1..], e, i - 1);
    }
  }

  /** The list grows by exactly `e`, and the others keep their relative order. */
  lemma InsertOrderedContents(list: seq<Entry>, e: Entry)
    ensures var p := InsertPosition(list, e);
            var r := list[..p] + [e] + list[p..];
            |r| == |list| + 1 && multiset(r) == multiset(list) + multiset{e}
            && r[..p] + r[p + 1..] == list
  {
    var p := InsertPosition(list, e);
    var r := list[..p] + [e] + list[p..];
    assert list == list[..p] + list[p..];
    assert r[..p] == list[..p] && r[p + 1..] == list[p..];
  }

  /** A sorted list stays sorted; an entry whose priority equals earlier ones
      goes after all of them (first in, first out among equals). */
  lemma InsertOrderedSorted(list: seq<Entry>, e: Entry)
    requires SortedByKey(list)
    ensures SortedByKey(list[..InsertPosition(list, e)] + [e] + list[InsertPosition(list, e)..])
    ensures forall q :: 0 <= q < |list| && list[q].v1 == e.v1 ==> q < InsertPosition(list, e)
  {
    var p := InsertPosition(list, e);
    var r := list[..p] + [e] + list[p..];
    forall i, j | 0 <= i < j < |r|
      ensures Le(r[i].v1, r[j].v1)
    {
      if j < p {
        assert r[i] == list[i] && r[j] == list[j];
      } else if j == p {
        assert r[i] == list[i];
      } else if i < p {
        assert r[i] == list[i] && r[j] == list[j - 1];
        LeTransitive(list[i].v1, e.v1, list[j - 1].v1);
      } else if i == p {
        assert r[j] == list[j - 1];
        LeTransitive(e.v1, list[p].v1, list[j - 1].v1);
      } else {
        assert r[i] == list[i - 1] && r[j] == list[j - 1];
      }
    }
    forall q | 0 <= q < |list| && list[q].v1 == e.v1
      ensures q < p
    {
      if q >= p {
        assert Le(list[p].v1, list[q].v1) by {
          if q > p {
            assert 0 <= p < q < |list|;
          }
        }
        assert false;
      }
    }
  }
}
