/** Python's OrderedDict as far as the caches use it, and the recency order it keeps. */
module OrderedDicts {
  import opened Support
  import opened Grouping

  datatype Key = Key(parts: seq<string>)

  /** Keys oldest first, and what each maps to. */
  datatype Dict<V> = Dict(order: seq<Key>, store: map<Key, V>) {
    ghost predicate Valid() {
      NoRepeat(order) && forall key :: key in store <==> key in order
    }

    /** Assignment keeps an existing key's place and appends a new one. */
    function Put(key: Key, value: V): Dict<V> {
      Dict(if key in store then order else order + [key], store[key := value])
    }

    function MoveToEnd(key: Key): Dict<V> {
      Dict(Without(order, key) + [key], store)
    }

    function PopFirst(): Dict<V>
      requires order != []
    {
      Dict(order[1..], store - {order[0]})
    }
  }

  function Except(key: Key): Key -> bool {
    (other: Key) => other != key
  }

  function Without(order: seq<Key>, key: Key): seq<Key> {
    Keep(Except(key), order)
  }

  lemma {:induction false} WithoutDistinct(order: seq<Key>, key: Key)
    requires NoRepeat(order)
    ensures NoRepeat(Without(order, key)) && key !in Without(order, key)
    ensures |Without(order, key)| == |order| - if key in order then 1 else 0
  {
    KeepMember(Except(key), order, key);
    if order != [] {
      var init, last := order[..|order| - 1], order[|order| - 1];
      WithoutDistinct(init, key);
      InInitOrLast(order, key);
      KeepMember(Except(key), init, last);
      var kept := Without(init, key);
      assert (kept + [last])[..|kept|] == kept;
    }
  }

  lemma AppendDistinct(order: seq<Key>, key: Key)
    requires NoRepeat(order) && key !in order
    ensures NoRepeat(order + [key])
  {
    assert (order + [key])[..|order|] == order;
  }

  lemma {:induction false} TailDistinct(order: seq<Key>)
    requires NoRepeat(order) && order != []
    ensures NoRepeat(order[1..]) && order[0] !in order[1..]
  {
    if |order| > 1 {
      var init, tail := order[..|order| - 1], order[1..];
      TailDistinct(init);
      assert tail[..|tail| - 1] == init[1..];
      InInitOrLast(tail, order[0]);
      assert forall x :: x in init[1..] ==> x in init;
    }
  }

  lemma MovedMember(order: seq<Key>, key: Key, other: Key)
    requires key in order
    ensures other in Without(order, key) + [key] <==> other in order
  {
    KeepMember(Except(key), order, other);
  }

  // ----- Recency -----

  /** One past the position of the last touch of key, 0 when it was never touched. */
  function LastTouch(log: seq<Key>, key: Key): nat {
    if log == [] then 0
    else if log[|log| - 1] == key then |log|
    else LastTouch(log[..|log| - 1], key)
  }

  lemma {:induction false} LastTouchBounds(log: seq<Key>, key: Key)
    ensures LastTouch(log, key) <= |log|
    ensures LastTouch(log, key) > 0 <==> key in log
    ensures LastTouch(log, key) > 0 ==> log[LastTouch(log, key) - 1] == key
  {
    if log != [] {
      LastTouchBounds(log[..|log| - 1], key);
      InInitOrLast(log, key);
    }
  }

  lemma Touch(log: seq<Key>, key: Key, other: Key)
    ensures LastTouch(log + [key], other) == if other == key then |log| + 1 else LastTouch(log, other)
    ensures LastTouch(log, other) <= |log|
  {
    assert (log + [key])[..|log|] == log;
    LastTouchBounds(log, other);
  }

  /** Touched keys in strictly increasing order of last touch, all before `bound`. */
  predicate Rising(order: seq<Key>, log: seq<Key>, bound: int) {
    order != [] ==>
      var last := order[|order| - 1];
      0 < LastTouch(log, last) < bound && Rising(order[..|order| - 1], log, LastTouch(log, last))
  }

  lemma {:induction false} RisingBounds(order: seq<Key>, log: seq<Key>, bound: int, key: Key)
    requires Rising(order, log, bound) && key in order
    ensures LastTouch(log, order[0]) <= LastTouch(log, key) < bound && LastTouch(log, key) > 0
  {
    var init, last := order[..|order| - 1], order[|order| - 1];
    InInitOrLast(order, key);
    if init != [] {
      if key in init {
        RisingBounds(init, log, LastTouch(log, last), key);
      } else {
        RisingBounds(init, log, LastTouch(log, last), init[0]);
      }
    }
  }

  lemma {:induction false} RisingPairwise(order: seq<Key>, log: seq<Key>, bound: int, i: nat, j: nat)
    requires Rising(order, log, bound) && i < j < |order|
    ensures LastTouch(log, order[i]) < LastTouch(log, order[j])
  {
    var init, last := order[..|order| - 1], order[|order| - 1];
    if j == |order| - 1 {
      assert init[i] == order[i];
      RisingBounds(init, log, LastTouch(log, last), order[i]);
    } else {
      RisingPairwise(init, log, LastTouch(log, last), i, j);
    }
  }

  lemma {:induction false} RisingWithout(order: seq<Key>, log: seq<Key>, bound: int, key: Key)
    requires Rising(order, log, bound)
    ensures Rising(Without(order, key), log, bound)
  {
    if order != [] {
      var init, last := order[..|order| - 1], order[|order| - 1];
      RisingWithout(init, log, LastTouch(log, last), key);
      var kept := Without(init, key);
      assert (kept + [last])[..|kept|] == kept;
    }
  }

  lemma {:induction false} RisingTail(order: seq<Key>, log: seq<Key>, bound: int)
    requires Rising(order, log, bound) && order != []
    ensures Rising(order[1..], log, bound)
  {
    if |order| > 1 {
      var init := order[..|order| - 1];
      RisingTail(init, log, LastTouch(log, order[|order| - 1]));
      assert order[1..][..|order[1..]| - 1] == init[1..];
    }
  }

  /** Touching a key that is not listed leaves the others' order as it was. */
  lemma {:induction false} RisingAfter(order: seq<Key>, log: seq<Key>, bound: int, key: Key)
    requires Rising(order, log, bound) && key !in order
    ensures Rising(order, log + [key], bound)
  {
    if order != [] {
      var init, last := order[..|order| - 1], order[|order| - 1];
      InInitOrLast(order, key);
      Touch(log, key, last);
      RisingAfter(init, log, LastTouch(log, last), key);
    }
  }

  /** The touched key then goes last. */
  lemma RisingAppend(order: seq<Key>, log: seq<Key>, key: Key)
    requires Rising(order, log, |log| + 1) && key !in order
    ensures Rising(order + [key], log + [key], |log| + 2)
  {
    RisingAfter(order, log, |log| + 1, key);
    Touch(log, key, key);
    assert (order + [key])[..|order|] == order;
  }

  /** Every touched key that is left out is older than all that are kept, and there was no room for it. */
  ghost predicate NothingNewerLeftOut(order: seq<Key>, log: seq<Key>, limit: nat) {
    forall key :: LastTouch(log, key) > 0 && key !in order ==>
      |order| == limit && order != [] && LastTouch(log, key) < LastTouch(log, order[0])
  }

  /** `order` is exactly the `limit` (or fewer) most recently touched distinct keys, oldest touch first. */
  ghost predicate MostRecent(order: seq<Key>, log: seq<Key>, limit: nat) {
    |order| <= limit && NoRepeat(order) && Rising(order, log, |log| + 1) && NothingNewerLeftOut(order, log, limit)
  }

  /** Moving a present key to the end is a touch. */
  lemma TouchPresent(order: seq<Key>, log: seq<Key>, limit: nat, key: Key)
    requires MostRecent(order, log, limit) && key in order
    ensures MostRecent(Without(order, key) + [key], log + [key], limit)
  {
    var rest := Without(order, key);
    WithoutDistinct(order, key);
    AppendDistinct(rest, key);
    RisingWithout(order, log, |log| + 1, key);
    RisingAppend(rest, log, key);
    var moved := rest + [key];
    forall other | LastTouch(log + [key], other) > 0 && other !in moved
      ensures |moved| == limit && LastTouch(log + [key], other) < LastTouch(log + [key], moved[0])
    {
      MovedMember(order, key, other);
      MovedMember(order, key, moved[0]);
      assert other != key;
      Touch(log, key, other);
      Touch(log, key, moved[0]);
      RisingBounds(order, log, |log| + 1, moved[0]);
    }
  }

  /** Appending an absent key and dropping the oldest one beyond the limit is a touch. */
  lemma TouchAbsent(order: seq<Key>, log: seq<Key>, limit: nat, key: Key)
    requires MostRecent(order, log, limit) && key !in order && limit > 0
    ensures var longer := order + [key];
            MostRecent(if |longer| > limit then longer[1..] else longer, log + [key], limit)
  {
    var longer := order + [key];
    AppendDistinct(order, key);
    RisingAppend(order, log, key);
    if |longer| > limit {
      var kept := longer[1..];
      TailDistinct(longer);
      RisingTail(longer, log + [key], |log| + 2);
      forall other | LastTouch(log + [key], other) > 0 && other !in kept
        ensures LastTouch(log + [key], other) < LastTouch(log + [key], kept[0])
      {
        assert kept[|kept| - 1] == key && kept[0] in longer;
        DroppedIsOldest(order, log, limit, key, other);
      }
    } else {
      forall other | LastTouch(log + [key], other) > 0
        ensures other in longer
      {
        Touch(log, key, other);
      }
    }
  }

  lemma DroppedIsOldest(order: seq<Key>, log: seq<Key>, limit: nat, key: Key, other: Key)
    requires MostRecent(order, log, limit) && key !in order && |order| == limit > 0
    requires LastTouch(log + [key], other) > 0 && other !in (order + [key])[1..]
    ensures LastTouch(log + [key], other) < LastTouch(log + [key], (order + [key])[1])
  {
    var longer := order + [key];
    assert longer == [order[0]] + longer[1..];
    assert longer[1..][|order| - 1] == key && other != key;
    assert other in order ==> other in longer;
    Touch(log, key, other);
    Touch(log, key, longer[1]);
    assert LastTouch(log, other) <= LastTouch(log, order[0]);
    if |order| > 1 {
      assert longer[1] == order[1] && order[1] in order;
      RisingPairwise(order, log, |log| + 1, 0, 1);
    }
  }

  // ----- A touch on the whole dictionary -----

  /** Trims from the old end, as the eviction loop does. */
  function Trimmed<V>(dict: Dict<V>, limit: nat): Dict<V>
    decreases |dict.order|
  {
    if |dict.order| <= limit then dict else Trimmed(dict.PopFirst(), limit)
  }

  /** Assigning a key, moving it to the end and trimming: how both caches store a result. */
  function Stored<V>(limit: nat, dict: Dict<V>, key: Key, value: V): Dict<V> {
    Trimmed(dict.Put(key, value).MoveToEnd(key), limit)
  }

  lemma PopKeepsValid<V>(dict: Dict<V>)
    requires dict.Valid() && dict.order != []
    ensures dict.PopFirst().Valid()
  {
    TailDistinct(dict.order);
    assert dict.order == [dict.order[0]] + dict.order[1..];
  }

  lemma PutKeepsValid<V>(dict: Dict<V>, key: Key, value: V)
    requires dict.Valid()
    ensures dict.Put(key, value).Valid() && key in dict.Put(key, value).store
    ensures |dict.Put(key, value).order| <= |dict.order| + 1
  {
    if key !in dict.store {
      AppendDistinct(dict.order, key);
    }
  }

  lemma MoveKeepsValid<V>(dict: Dict<V>, key: Key)
    requires dict.Valid() && key in dict.store
    ensures dict.MoveToEnd(key).Valid() && |dict.MoveToEnd(key).order| == |dict.order|
  {
    WithoutDistinct(dict.order, key);
    AppendDistinct(Without(dict.order, key), key);
    forall other
      ensures other in dict.order <==> other in dict.MoveToEnd(key).order
    {
      MovedMember(dict.order, key, other);
    }
  }

  lemma PutAbsentThenMove<V>(dict: Dict<V>, key: Key, value: V)
    requires dict.Valid() && key !in dict.order
    ensures dict.Put(key, value).MoveToEnd(key) == Dict(dict.order + [key], dict.store[key := value])
  {
    KeepAppend(Except(key), dict.order, key);
    KeepAll(Except(key), dict.order);
    assert Without(dict.order, key) + [] == dict.order;
  }

  /** The cache an install leaves: the same keys touched once, the new value under its key. */
  ghost predicate Touched<V>(limit: nat, dict: Dict<V>, after: Dict<V>, log: seq<Key>, key: Key, value: V) {
    && after.Valid() && MostRecent(after.order, log + [key], limit)
    && (forall other :: other in after.store ==>
          if other == key then after.store[other] == value
          else other in dict.store && after.store[other] == dict.store[other])
  }

  lemma TouchedPresent<V>(limit: nat, dict: Dict<V>, log: seq<Key>, key: Key, value: V)
    requires dict.Valid() && MostRecent(dict.order, log, limit) && key in dict.store && limit > 0
    ensures Touched(limit, dict, Stored(limit, dict, key, value), log, key, value)
  {
    PutKeepsValid(dict, key, value);
    MoveKeepsValid(dict.Put(key, value), key);
    TouchPresent(dict.order, log, limit, key);
    hide MostRecent, Without;
    assert Stored(limit, dict, key, value) == dict.Put(key, value).MoveToEnd(key);
  }

  /** What trimming leaves after an absent key was appended to a cache within the limit. */
  lemma TrimmedAbsent<V>(limit: nat, longer: Dict<V>)
    requires longer.Valid() && 0 < |longer.order| <= limit + 1
    ensures var after := Trimmed(longer, limit);
            && after.Valid()
            && after.order == (if |longer.order| > limit then longer.order[1..] else longer.order)
            && (forall key :: key in after.store ==> key in longer.store && after.store[key] == longer.store[key])
  {
    hide NoRepeat;
    PopKeepsValid(longer);
    if |longer.order| > limit {
      assert Trimmed(longer, limit) == longer.PopFirst();
    }
  }

  lemma TouchedAbsent<V>(limit: nat, dict: Dict<V>, log: seq<Key>, key: Key, value: V)
    requires dict.Valid() && MostRecent(dict.order, log, limit) && key !in dict.store && limit > 0
    ensures Touched(limit, dict, Stored(limit, dict, key, value), log, key, value)
  {
    var put := Dict(dict.order + [key], dict.store[key := value]);
    PutKeepsValid(dict, key, value);
    PutAbsentThenMove(dict, key, value);
    TouchAbsent(dict.order, log, limit, key);
    AbsentTouched(limit, dict, put, log, key, value);
  }

  lemma AbsentTouched<V>(limit: nat, dict: Dict<V>, put: Dict<V>, log: seq<Key>, key: Key, value: V)
    requires put.Valid() && put.store == dict.store[key := value] && 0 < |put.order| <= limit + 1
    requires MostRecent(if |put.order| > limit then put.order[1..] else put.order, log + [key], limit)
    ensures Touched(limit, dict, Trimmed(put, limit), log, key, value)
  {
    hide MostRecent, Without, NoRepeat, Trimmed;
    TrimmedAbsent(limit, put);
  }

  lemma TouchedOnce<V>(limit: nat, dict: Dict<V>, log: seq<Key>, key: Key, value: V)
    requires dict.Valid() && MostRecent(dict.order, log, limit) && limit > 0
    ensures Touched(limit, dict, Stored(limit, dict, key, value), log, key, value)
  {
    if key in dict.store {
      TouchedPresent(limit, dict, log, key, value);
    } else {
      TouchedAbsent(limit, dict, log, key, value);
    }
  }
}
