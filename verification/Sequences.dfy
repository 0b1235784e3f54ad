/** Facts about the elements of sequences. */
module Sequences {

  function Front<T>(s: seq<T>): seq<T>
    requires s != []
  {
    s[..|s| - 1]
  }

  function Last<T>(s: seq<T>): T
    requires s != []
  {
    s[|s| - 1]
  }

  function Without<T>(s: seq<T>, index: nat): seq<T>
    requires index < |s|
  {
    s[..index] + s[index + 1..]
  }

  lemma WithoutElements<T>(s: seq<T>, index: nat)
    requires index < |s|
    ensures multiset(s) == multiset(Without(s, index)) + multiset{s[index]}
  {
    assert s == s[..index] + [s[index]] + s[index + 1..];
  }

  lemma FrontElements<T>(s: seq<T>)
    requires s != []
    ensures multiset(s) == multiset(Front(s)) + multiset{Last(s)}
  {
    assert s == Front(s) + [Last(s)];
  }

  /** Removing the last element of one order and the same element of another leaves the same elements. */
  lemma RemoveCommon<T>(one: seq<T>, other: seq<T>) returns (index: nat)
    requires one != [] && multiset(one) == multiset(other)
    ensures index < |other| && other[index] == Last(one)
    ensures multiset(Front(one)) == multiset(Without(other, index))
  {
    var last := Last(one);
    assert last in multiset(other);
    index :| 0 <= index < |other| && other[index] == last;
    FrontElements(one);
    WithoutElements(other, index);
    assert multiset(Front(one)) == multiset(one) - multiset{last};
    assert multiset(Without(other, index)) == multiset(other) - multiset{last};
  }

  lemma SameElements<T>(one: seq<T>, other: seq<T>)
    requires multiset(one) == multiset(other)
    ensures |one| == |other|
    ensures forall e :: e in one <==> e in other
  {
    assert |one| == |multiset(one)| == |multiset(other)| == |other|;
    forall e ensures e in one <==> e in other {
      assert e in one <==> e in multiset(one);
      assert e in other <==> e in multiset(other);
    }
  }
}
