/** Small vocabulary shared by every component: optional values, filtering, sums and sorted sets. */
module Support {

  datatype Option<+T> = None | Some(value: T)

  datatype Result<+T, +E> = Ok(value: T) | Err(error: E)

  /** An identifier; wrapped so that comparing two is not a comparison of texts. */
  datatype Id = Id(text: string)

  /** The elements of s that satisfy p, in order. */
  function Keep<T>(p: T -> bool, s: seq<T>): seq<T> {
    if s == [] then []
    else
      var rest := Keep(p, s[..|s| - 1]);
      if p(s[|s| - 1]) then rest + [s[|s| - 1]] else rest
  }

  lemma InInitOrLast<T>(s: seq<T>, x: T)
    requires s != []
    ensures x in s <==> x in s[..|s| - 1] || x == s[|s| - 1]
  {
    assert s == s[..|s| - 1] + [s[|s| - 1]];
  }

  /** The sum of f over s. */
  function Total<T>(f: T -> int, s: seq<T>): int {
    if s == [] then 0 else Total(f, s[..|s| - 1]) + f(s[|s| - 1])
  }

  lemma KeepAppend<T>(p: T -> bool, s: seq<T>, x: T)
    ensures Keep(p, s + [x]) == Keep(p, s) + if p(x) then [x] else []
  {
    assert (s + [x])[..|s|] == s;
  }

  lemma KeepOne<T>(p: T -> bool, x: T)
    ensures Keep(p, [x]) == if p(x) then [x] else []
  {
    assert [x][..0] == [];
  }

  lemma {:induction false} KeepConcat<T>(p: T -> bool, s: seq<T>, t: seq<T>)
    ensures Keep(p, s + t) == Keep(p, s) + Keep(p, t)
  {
    if t == [] {
      assert s + t == s;
    } else {
      var init, last := t[..|t| - 1], t[|t| - 1];
      assert s + t == (s + init) + [last];
      KeepAppend(p, s + init, last);
      KeepConcat(p, s, init);
    }
  }

  lemma {:induction false} KeepMember<T>(p: T -> bool, s: seq<T>, x: T)
    ensures x in Keep(p, s) <==> x in s && p(x)
  {
    if s != [] {
      var init, last := s[..|s| - 1], s[|s| - 1];
      assert s == init + [last];
      KeepMember(p, init, x);
    }
  }

  lemma {:induction false} KeepAll<T>(p: T -> bool, s: seq<T>)
    requires forall x :: x in s ==> p(x)
    ensures Keep(p, s) == s
  {
    if s != [] {
      var init, last := s[..|s| - 1], s[|s| - 1];
      assert s == init + [last];
      KeepAll(p, init);
    }
  }

  lemma {:induction false} KeepNone<T>(p: T -> bool, s: seq<T>)
    requires forall x :: x in s ==> !p(x)
    ensures Keep(p, s) == []
  {
    if s != [] {
      KeepNone(p, s[..|s| - 1]);
    }
  }

  lemma TotalAppend<T>(f: T -> int, s: seq<T>, x: T)
    ensures Total(f, s + [x]) == Total(f, s) + f(x)
  {
    assert (s + [x])[..|s|] == s;
  }

  lemma {:induction false} TotalConcat<T>(f: T -> int, s: seq<T>, t: seq<T>)
    ensures Total(f, s + t) == Total(f, s) + Total(f, t)
  {
    if t == [] {
      assert s + t == s;
    } else {
      assert (s + t)[..|s + t| - 1] == s + t[..|t| - 1];
      TotalConcat(f, s, t[..|t| - 1]);
    }
  }

  predicate Ascending(s: seq<int>) {
    forall i, j :: 0 <= i < j < |s| ==> s[i] < s[j]
  }

  lemma SubsetSize(s: set<int>, t: set<int>)
    requires s <= t
    ensures |s| <= |t|
  {
    assert t == s + (t - s);
  }

  lemma HasMember(members: set<int>)
    ensures members != {} ==> exists x :: x in members
  {
    if forall x :: x !in members {
      assert members == {};
    }
  }

  method Least(members: set<int>) returns (least: int)
    requires members != {}
    ensures least in members
    ensures forall x :: x in members ==> least <= x
  {
    HasMember(members);
    least :| least in members;
    var rest := members - {least};
    while rest != {}
      invariant rest <= members
      invariant least in members
      invariant forall x :: x in members && x !in rest ==> least <= x
      decreases rest
    {
      HasMember(rest);
      var other :| other in rest;
      if other < least {
        least := other;
      }
      rest := rest - {other};
    }
  }

  /** The members of a finite set of integers in increasing order. */
  method SortedMembers(members: set<int>) returns (sorted: seq<int>)
    ensures Ascending(sorted)
    ensures forall x :: x in sorted <==> x in members
    ensures forall i :: 0 <= i < |sorted| ==> sorted[i] in members
    ensures |sorted| == |members|
  {
    sorted := [];
    var rest := members;
    while rest != {}
      invariant rest <= members
      invariant forall x :: x in sorted <==> x in members && x !in rest
      invariant forall i, y :: 0 <= i < |sorted| && y in rest ==> sorted[i] < y
      invariant Ascending(sorted)
      invariant |sorted| + |rest| == |members|
      decreases rest
    {
      var least := Least(rest);
      sorted := sorted + [least];
      rest := rest - {least};
    }
  }
}
