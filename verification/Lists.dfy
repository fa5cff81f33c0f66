/** Sequences that stand for linked lists. */
module Lists {
  predicate NoDuplicates<T(==)>(s: seq<T>) {
    forall i, j :: 0 <= i < j < |s| ==> s[i] != s[j]
  }

  function SetOf<T(==)>(s: seq<T>): set<T> {
    set b | b in s
  }

  lemma {:induction false} SizeOfList<T>(s: seq<T>)
    requires NoDuplicates(s)
    ensures |SetOf(s)| == |s|
  {
    if s != [] {
      SizeOfList(s[1..]);
      assert SetOf(s) == SetOf(s[1..]) + {s[0]};
      assert s[0] !in SetOf(s[1..]);
    }
  }

  function Reverse<T>(s: seq<T>): (r: seq<T>)
    ensures |r| == |s|
  {
    if s == [] then [] else Reverse(s[1..]) + [s[0]]
  }

  lemma {:induction false} ReverseAt<T>(s: seq<T>, i: nat)
    requires i < |s|
    ensures Reverse(s)[i] == s[|s| - 1 - i]
  {
    if i < |s| - 1 {
      ReverseAt(s[1..], i);
    }
  }

  lemma ReverseAppend<T>(s: seq<T>, a: T)
    ensures Reverse(s + [a]) == [a] + Reverse(s)
  {
    forall i | 0 <= i <= |s| ensures Reverse(s + [a])[i] == ([a] + Reverse(s))[i] {
      ReverseAt(s + [a], i);
      if i > 0 {
        ReverseAt(s, i - 1);
      }
    }
  }

  lemma ReverseTwice<T>(s: seq<T>)
    ensures Reverse(Reverse(s)) == s
  {
    forall i | 0 <= i < |s| ensures Reverse(Reverse(s))[i] == s[i] {
      ReverseAt(Reverse(s), i);
      ReverseAt(s, |s| - 1 - i);
    }
  }

  lemma ReverseMembers<T>(s: seq<T>)
    ensures forall a :: a in Reverse(s) ==> a in s
  {
    forall a | a in Reverse(s) ensures a in s {
      var i :| 0 <= i < |s| && Reverse(s)[i] == a;
      ReverseAt(s, i);
    }
  }

  lemma NoDuplicatesReversed<T>(s: seq<T>)
    requires NoDuplicates(s)
    ensures NoDuplicates(Reverse(s))
  {
    forall i, j | 0 <= i < j < |s| ensures Reverse(s)[i] != Reverse(s)[j] {
      ReverseAt(s, i);
      ReverseAt(s, j);
    }
  }
}
