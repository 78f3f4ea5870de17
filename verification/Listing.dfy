/** Tables kept as hash maps and shown as sorted lists. */
module Listing {
  import opened Prelude
  import opened Ordering

  /** The values of a table, in strictly increasing order of `key`. */
  ghost predicate Lists<V(!new)>(shown: seq<V>, table: map<int, V>, key: V -> Key) {
    && StrictlySorted(shown, key)
    && forall v :: v in shown <==> key(v).id in table && table[key(v).id] == v
  }

  /** Every value carries the identifier it is filed under. */
  ghost predicate Keyed<V>(table: map<int, V>, key: V -> Key) {
    forall id | id in table :: key(table[id]).id == id
  }

  lemma ListIsUnique<V(!new)>(a: seq<V>, b: seq<V>, table: map<int, V>, key: V -> Key)
    requires Lists(a, table, key) && Lists(b, table, key)
    ensures a == b
  {
    SortedIsUnique(a, b, key);
  }

  /** Take the values in whatever order the hash table gives them, and sort. */
  method Listed<V(!new)>(table: map<int, V>, key: V -> Key) returns (shown: seq<V>)
    requires Keyed(table, key)
    ensures Lists(shown, table, key)
  {
    var values: seq<V> := [];
    var rest := table.Keys;
    while rest != {}
      invariant rest <= table.Keys
      invariant forall v :: v in values <==> key(v).id in table && key(v).id !in rest && table[key(v).id] == v
      invariant DistinctKeys(values, key)
      decreases |rest|
    {
      SomeId(rest);
      var id :| id in rest;
      values := values + [table[id]];
      rest := rest - {id};
    }
    SortElements(values, key);
    SortSorted(values, key);
    shown := Sort(values, key);
    forall v ensures v in shown <==> v in values {
      assert v in shown <==> v in multiset(shown);
    }
  }

  /** A list is as long as its table is large. */
  lemma {:induction false} SizeOfList<V(!new)>(all: seq<V>, table: map<int, V>, key: V -> Key)
    requires Lists(all, table, key) && Keyed(table, key)
    ensures |all| == |table|
    decreases |all|
  {
    forall id | id in table ensures table[id] in all {
      assert key(table[id]).id == id;
    }
    if all == [] {
      assert forall id :: id !in table.Keys;
      assert table.Keys == {};
      assert |table| == |table.Keys| == 0;
    } else {
      var first := all[0];
      var id := key(first).id;
      assert first in all;
      var rest := table - {id};
      assert table == rest[id := first];
      assert |table| == |rest| + 1;
      forall v | v in all[1..] ensures key(v).id in rest && rest[key(v).id] == v {
        var i :| 1 <= i < |all| && all[i] == v;
        assert Less(key(all[0]), key(all[i]));
        assert v in all;
        assert table[key(v).id] == v && v != first;
      }
      forall v | key(v).id in rest && rest[key(v).id] == v ensures v in all[1..] {
        assert v in all;
        assert all == [first] + all[1..];
      }
      SizeOfList(all[1..], rest, key);
    }
  }
}
