/** Splitting a list into groups by an optional key, in order of first appearance. */
module Grouping {
  import opened Support

  function Having<T, K(==)>(key: T -> Option<K>, value: K): T -> bool {
    (item: T) => key(item) == Some(value)
  }

  function Keyed<T, K(==)>(key: T -> Option<K>): T -> bool {
    (item: T) => key(item).Some?
  }

  /** The members of one group, in order. */
  function Group<T, K(==)>(items: seq<T>, key: T -> Option<K>, value: K): seq<T> {
    Keep(Having(key, value), items)
  }

  /** Group keys in order of first appearance. */
  function FirstSeen<T, K(==)>(items: seq<T>, key: T -> Option<K>): seq<K> {
    if items == [] then []
    else
      var before := FirstSeen(items[..|items| - 1], key);
      var last := key(items[|items| - 1]);
      if last.None? || last.value in before then before else before + [last.value]
  }

  predicate NoRepeat<K(==)>(order: seq<K>) {
    order == [] || (order[|order| - 1] !in order[..|order| - 1] && NoRepeat(order[..|order| - 1]))
  }

  lemma {:induction false} NoRepeatDistinct<K>(order: seq<K>, i: nat, j: nat)
    requires NoRepeat(order) && i < j < |order|
    ensures order[i] != order[j]
  {
    if j == |order| - 1 {
      assert order[..|order| - 1][i] == order[i];
    } else {
      NoRepeatDistinct(order[..|order| - 1], i, j);
    }
  }

  lemma FirstSeenAppend<T, K>(items: seq<T>, key: T -> Option<K>, item: T)
    ensures FirstSeen(items + [item], key) ==
            (var before := FirstSeen(items, key);
             if key(item).None? || key(item).value in before then before else before + [key(item).value])
  {
    assert (items + [item])[..|items|] == items;
  }

  lemma {:induction false} FirstSeenSound<T, K(!new)>(items: seq<T>, key: T -> Option<K>)
    ensures NoRepeat(FirstSeen(items, key))
    ensures forall value :: value in FirstSeen(items, key) <==> Group(items, key, value) != []
  {
    if items != [] {
      var init, item := items[..|items| - 1], items[|items| - 1];
      assert items == init + [item];
      FirstSeenSound(init, key);
      FirstSeenAppend(init, key, item);
      var before, after := FirstSeen(init, key), FirstSeen(items, key);
      if after != before {
        assert after[..|before|] == before;
      }
      forall value
        ensures value in after <==> Group(items, key, value) != []
      {
        GroupAppend(init, key, item, value);
      }
    }
  }

  lemma GroupAppend<T, K>(items: seq<T>, key: T -> Option<K>, item: T, value: K)
    ensures Group(items + [item], key, value) ==
            Group(items, key, value) + if key(item) == Some(value) then [item] else []
  {
    KeepAppend(Having(key, value), items, item);
  }

  ghost predicate GroupedBy<T, K(!new)>(items: seq<T>, key: T -> Option<K>, grouped: map<K, seq<T>>)
  {
    && (forall value :: value in grouped <==> Group(items, key, value) != [])
    && (forall value :: value in grouped ==> grouped[value] == Group(items, key, value))
  }

  /** Appending to a defaultdict(list). */
  function Extended<T, K(==)>(grouped: map<K, seq<T>>, value: K, item: T): map<K, seq<T>> {
    grouped[value := (if value in grouped then grouped[value] else []) + [item]]
  }

  lemma ExtendedGroups<T, K(!new)>(items: seq<T>, key: T -> Option<K>, grouped: map<K, seq<T>>, item: T)
    requires GroupedBy(items, key, grouped)
    ensures GroupedBy(items + [item], key, if key(item).Some? then Extended(grouped, key(item).value, item) else grouped)
  {
    forall value
      ensures Group(items + [item], key, value) ==
              Group(items, key, value) + if key(item) == Some(value) then [item] else []
    {
      GroupAppend(items, key, item, value);
    }
  }

  /** Splits the keyed items into complete, order-preserving groups. */
  method Groups<T, K(==,!new)>(items: seq<T>, key: T -> Option<K>)
    returns (order: seq<K>, grouped: map<K, seq<T>>)
    ensures order == FirstSeen(items, key)
    ensures GroupedBy(items, key, grouped)
  {
    order, grouped := [], map[];
    for i := 0 to |items|
      invariant order == FirstSeen(items[..i], key)
      invariant GroupedBy(items[..i], key, grouped)
    {
      assert items[..i + 1] == items[..i] + [items[i]];
      FirstSeenAppend(items[..i], key, items[i]);
      FirstSeenSound(items[..i], key);
      ExtendedGroups(items[..i], key, grouped, items[i]);
      var value := key(items[i]);
      if value.Some? {
        if value.value !in grouped {
          order := order + [value.value];
        }
        grouped := Extended(grouped, value.value, items[i]);
      }
    }
    assert items[..|items|] == items;
  }

  /** An item belongs to a group exactly when it is listed and has that key. */
  lemma GroupMember<T, K>(items: seq<T>, key: T -> Option<K>, value: K, item: T)
    ensures item in Group(items, key, value) <==> item in items && key(item) == Some(value)
  {
    KeepMember(Having(key, value), items, item);
  }

  /** Where a key first appears. */
  ghost predicate FirstAt<T, K(!new)>(items: seq<T>, key: T -> Option<K>, value: K, i: int) {
    0 <= i < |items| && key(items[i]) == Some(value) && forall j :: 0 <= j < i ==> key(items[j]) != Some(value)
  }

  lemma FirstAtGrows<T, K(!new)>(items: seq<T>, key: T -> Option<K>, item: T, value: K, i: int)
    requires FirstAt(items, key, value, i)
    ensures FirstAt(items + [item], key, value, i)
  {
  }

  /** The keys are listed by where they first appear. */
  lemma {:induction false} FirstSeenInOrder<T, K(!new)>(items: seq<T>, key: T -> Option<K>, m: nat)
    returns (at: int, next: int)
    requires m < |FirstSeen(items, key)|
    ensures FirstAt(items, key, FirstSeen(items, key)[m], at)
    ensures m + 1 < |FirstSeen(items, key)| ==> FirstAt(items, key, FirstSeen(items, key)[m + 1], next) && at < next
  {
    var init, item := items[..|items| - 1], items[|items| - 1];
    assert items == init + [item];
    var before, order := FirstSeen(init, key), FirstSeen(items, key);
    next := 0;
    if m < |before| {
      at, next := FirstSeenInOrder(init, key, m);
      FirstAtGrows(init, key, item, order[m], at);
      if m + 1 < |before| {
        FirstAtGrows(init, key, item, order[m + 1], next);
      } else if m + 1 < |order| {
        FirstSeenNew(init, key, item);
        next := |init|;
      }
    } else {
      FirstSeenNew(init, key, item);
      at := |init|;
    }
  }

  lemma FirstSeenNew<T, K(!new)>(items: seq<T>, key: T -> Option<K>, item: T)
    requires key(item).Some? && key(item).value !in FirstSeen(items, key)
    ensures FirstAt(items + [item], key, key(item).value, |items|)
  {
    FirstSeenSound(items, key);
    forall j | 0 <= j < |items|
      ensures key(items[j]) != Some(key(item).value)
    {
      GroupMember(items, key, key(item).value, items[j]);
    }
  }

  /** The sizes of the groups named in `order`. */
  function SizeOfGroups<T, K(==)>(items: seq<T>, key: T -> Option<K>, order: seq<K>): int {
    if order == [] then 0
    else SizeOfGroups(items, key, order[..|order| - 1]) + |Group(items, key, order[|order| - 1])|
  }

  lemma {:induction false} OneMoreInSizes<T, K>(items: seq<T>, key: T -> Option<K>, item: T, order: seq<K>)
    requires NoRepeat(order)
    ensures SizeOfGroups(items + [item], key, order) ==
            SizeOfGroups(items, key, order) + if key(item).Some? && key(item).value in order then 1 else 0
  {
    if order != [] {
      OneMoreInSizes(items, key, item, order[..|order| - 1]);
      GroupAppend(items, key, item, order[|order| - 1]);
      if key(item).Some? {
        InInitOrLast(order, key(item).value);
      }
    }
  }

  /** Every keyed item is in exactly one group. */
  lemma {:induction false} GroupSizesAddUp<T, K(!new)>(items: seq<T>, key: T -> Option<K>)
    ensures SizeOfGroups(items, key, FirstSeen(items, key)) == |Keep(Keyed(key), items)|
  {
    if items != [] {
      var init, item := items[..|items| - 1], items[|items| - 1];
      assert items == init + [item];
      var order := FirstSeen(init, key);
      GroupSizesAddUp(init, key);
      FirstSeenSound(init, key);
      KeepAppend(Keyed(key), init, item);
      OneMoreInSizes(init, key, item, order);
      FirstSeenAppend(init, key, item);
      if key(item).Some? && key(item).value !in order {
        GroupAppend(init, key, item, key(item).value);
        assert (order + [key(item).value])[..|order|] == order;
      }
    }
  }
}
