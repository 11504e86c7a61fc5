/** Small shared vocabulary about sequences. */
module Sequences {

  datatype Option<+T> = None | Some(value: T)

  ghost predicate NoDup<T>(s: seq<T>) {
    forall i, j :: 0 <= i < j < |s| ==> s[i] != s[j]
  }

  function Elems<T(!new)>(s: seq<T>): (r: set<T>)
    ensures forall x :: x in r <==> x in s
  {
    set x | x in s
  }

  /** keys lists every element of domain exactly once. */
  ghost predicate Enumerates<T(!new)>(keys: seq<T>, domain: set<T>) {
    NoDup(keys) && Elems(keys) == domain
  }

  /** The position of x in a sequence that holds it. */
  ghost function IndexOf<T>(s: seq<T>, x: T): (i: nat)
    requires x in s
    ensures i < |s| && s[i] == x
  {
    var i :| 0 <= i < |s| && s[i] == x;
    i
  }

  lemma NoDupConcat<T>(a: seq<T>, b: seq<T>)
    requires NoDup(a) && NoDup(b) && forall x :: x in a ==> x !in b
    ensures NoDup(a + b)
  {
    forall i, j | 0 <= i < j < |a + b| ensures (a + b)[i] != (a + b)[j] {
      if i < |a| <= j { assert a[i] in a && b[j - |a|] in b; }
    }
  }

  /** The first position of x in a sequence; the length if it is not there. */
  ghost function FirstListed<T>(s: seq<T>, x: T): (k: nat)
    ensures k <= |s| && x !in s[..k] && (k < |s| ==> s[k] == x)
  {
    if s == [] || s[0] == x then 0
    else
      var k := 1 + FirstListed(s[1..], x);
      assert s[..k] == [s[0]] + s[1..][..k - 1];
      k
  }

  lemma FirstListedPrefix<T>(s: seq<T>)
    requires s != []
    ensures forall x :: x in s[..|s| - 1] ==>
                          FirstListed(s, x) == FirstListed(s[..|s| - 1], x) < |s| - 1
    ensures forall x :: x !in s[..|s| - 1] ==> FirstListed(s, x) >= |s| - 1
  {
    var init := s[..|s| - 1];
    forall x
      ensures x in init ==> FirstListed(s, x) == FirstListed(init, x) < |init|
      ensures x !in init ==> FirstListed(s, x) >= |init|
    {
      var m := FirstListed(init, x);
      assert init[..m] == s[..m] && init[..|init|] == init;
    }
  }

  /** f keeps the order in which s first mentions its elements. */
  ghost predicate ListedInOrder<T>(s: seq<T>, f: seq<T>) {
    forall i, j :: 0 <= i < j < |f| ==> FirstListed(s, f[i]) < FirstListed(s, f[j])
  }

  lemma LongerListKeepsOrder<T>(s: seq<T>, f: seq<T>)
    requires s != [] && ListedInOrder(s[..|s| - 1], f)
    requires forall x :: x in f ==> x in s[..|s| - 1]
    ensures ListedInOrder(s, f)
    ensures s[|s| - 1] !in s[..|s| - 1] ==> ListedInOrder(s, f + [s[|s| - 1]])
  {
    FirstListedPrefix(s);
    var last := s[|s| - 1];
    forall i | 0 <= i < |f|
      ensures FirstListed(s, f[i]) == FirstListed(s[..|s| - 1], f[i]) < |s| - 1
    {
      assert f[i] in f;
    }
    hide FirstListed;
    var longer := f + [last];
    assert forall i :: 0 <= i < |f| ==> longer[i] == f[i];
  }
}
