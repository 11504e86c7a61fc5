/** The iteration order of a std::map with string keys: ascending, character by character. */
module KeyOrder {
  import opened Sequences

  predicate Less(a: string, b: string) {
    b != "" && (a == "" || a[0] < b[0] || (a[0] == b[0] && Less(a[1..], b[1..])))
  }

  /** a ends, or is smaller, where the strings part at index i. */
  predicate PartAt(a: string, b: string, i: nat) {
    i <= |a| && i < |b| && a[..i] == b[..i] && (i == |a| || a[i] < b[i])
  }

  lemma SameFirstChar(a: string, b: string, i: nat)
    requires PartAt(a, b, i) && i > 0
    ensures a != "" && b != "" && a[0] == b[0]
  {
    assert a[..i][0] == b[..i][0];
  }

  /** a is smaller exactly if it is a proper prefix of b, or has the smaller character at the first
      index where they differ. */
  lemma {:induction false} LessIff(a: string, b: string)
    ensures Less(a, b) <==> exists i: nat :: PartAt(a, b, i)
    decreases |a|
  {
    if a == "" || b == "" || a[0] != b[0] {
      assert Less(a, b) ==> PartAt(a, b, 0);
      if i: nat :| PartAt(a, b, i) {
        if i > 0 { SameFirstChar(a, b, i); }
      }
    } else {
      LessIff(a[1..], b[1..]);
      forall i: nat ensures PartAt(a[1..], b[1..], i) <==> PartAt(a, b, i + 1) {
        if i <= |a[1..]| && i < |b[1..]| {
          assert a[..i + 1] == [a[0]] + a[1..][..i] && b[..i + 1] == [b[0]] + b[1..][..i];
        }
      }
      if i: nat :| PartAt(a, b, i) { assert i > 0 && PartAt(a[1..], b[1..], i - 1); }
    }
  }

  lemma {:induction false} LessIsStrict(a: string, b: string)
    ensures !(Less(a, b) && Less(b, a)) && !Less(a, a)
    decreases |a|
  {
    if a != "" {
      LessIsStrict(a[1..], if b == "" then "" else b[1..]);
    }
  }

  lemma {:induction false} LessIsTotal(a: string, b: string)
    ensures a == b || Less(a, b) || Less(b, a)
  {
    if a != "" && b != "" && a[0] == b[0] {
      LessIsTotal(a[1..], b[1..]);
      assert a == [a[0]] + a[1..] && b == [b[0]] + b[1..];
    }
  }

  lemma {:induction false} LessIsTransitive(a: string, b: string, c: string)
    requires Less(a, b) && Less(b, c)
    ensures Less(a, c)
  {
    if a != "" && a[0] == b[0] == c[0] { LessIsTransitive(a[1..], b[1..], c[1..]); }
  }

  ghost predicate Ascending(keys: seq<string>) {
    forall i, j :: 0 <= i < j < |keys| ==> Less(keys[i], keys[j])
  }

  /** keys is what iterating over a map with this domain yields. */
  ghost predicate MapOrder(keys: seq<string>, domain: set<string>) {
    Ascending(keys) && Elems(keys) == domain
  }

  lemma MapOrderEnumerates(keys: seq<string>, domain: set<string>)
    requires MapOrder(keys, domain)
    ensures Enumerates(keys, domain)
  {
    forall i, j | 0 <= i < j < |keys| ensures keys[i] != keys[j] { LessIsStrict(keys[i], keys[j]); }
  }

  lemma FirstIsLeast(a: seq<string>, b: seq<string>, domain: set<string>)
    requires MapOrder(a, domain) && MapOrder(b, domain) && domain != {}
    ensures a != [] && b != [] && a[0] == b[0]
  {
    var x :| x in domain;
    assert x in a && x in b;
    assert a[0] in Elems(a) && b[0] in Elems(b);
    var j :| 0 <= j < |b| && b[j] == a[0];
    var k :| 0 <= k < |a| && a[k] == b[0];
    LessIsStrict(a[0], b[0]);
  }

  lemma TailOrder(a: seq<string>, domain: set<string>)
    requires MapOrder(a, domain) && a != []
    ensures MapOrder(a[1..], domain - {a[0]}) && a[0] in domain
  {
    assert a[0] in Elems(a);
    forall x ensures x in a[1..] <==> x in domain - {a[0]} {
      LessIsStrict(a[0], x);
      if x in a[1..] {
        var i :| 0 <= i < |a[1..]| && a[1..][i] == x;
        assert a[i + 1] == x && x in Elems(a);
      } else if x in domain {
        assert x in a;
        var i :| 0 <= i < |a| && a[i] == x;
        if i > 0 { assert a[1..][i - 1] == x; }
      }
    }
  }

  lemma HasKey(keys: seq<string>, domain: set<string>)
    requires MapOrder(keys, domain) && keys != []
    ensures domain != {}
  {
    assert keys[0] in Elems(keys);
  }

  /** The order of a map is determined by its keys. */
  lemma {:induction false} MapOrderIsUnique(a: seq<string>, b: seq<string>, domain: set<string>)
    requires MapOrder(a, domain) && MapOrder(b, domain)
    ensures a == b
    decreases |a|
  {
    if a != [] { HasKey(a, domain); }
    if b != [] { HasKey(b, domain); }
    if domain != {} {
      FirstIsLeast(a, b, domain);
      TailOrder(a, domain);
      TailOrder(b, domain);
      MapOrderIsUnique(a[1..], b[1..], domain - {a[0]});
      assert a == [a[0]] + a[1..] && b == [b[0]] + b[1..];
    }
  }

  /** std::map::insert of a new key. */
  function InsertKey(keys: seq<string>, x: string): (r: seq<string>)
    ensures forall y :: y in r <==> y in keys || y == x
  {
    if keys == [] || Less(x, keys[0]) then [x] + keys
    else
      var r := [keys[0]] + InsertKey(keys[1..], x);
      assert keys == [keys[0]] + keys[1..];
      r
  }

  lemma {:induction false} InsertKeepsOrder(keys: seq<string>, x: string)
    requires Ascending(keys) && x !in keys
    ensures Ascending(InsertKey(keys, x))
  {
    if keys != [] {
      if Less(x, keys[0]) {
        forall j | 0 < j < |keys| ensures Less(x, keys[j]) { LessIsTransitive(x, keys[0], keys[j]); }
      } else {
        var rest := InsertKey(keys[1..], x);
        assert x !in keys[1..] && keys[0] in keys;
        LessIsTotal(x, keys[0]);
        InsertKeepsOrder(keys[1..], x);
        forall j | 0 <= j < |rest| ensures Less(keys[0], rest[j]) {
          assert rest[j] in rest;
          if rest[j] != x {
            var i :| 0 <= i < |keys[1..]| && keys[1..][i] == rest[j];
            assert keys[i + 1] == rest[j];
          }
        }
      }
    }
  }

  /** The keys of a map, in its order. */
  ghost function KeyList(domain: set<string>): (keys: seq<string>)
    ensures MapOrder(keys, domain)
  {
    if domain == {} then []
    else
      var x :| x in domain;
      var rest := KeyList(domain - {x});
      assert x !in Elems(rest);
      InsertKeepsOrder(rest, x);
      InsertKey(rest, x)
  }

  method ListKeys(domain: set<string>) returns (keys: seq<string>)
    ensures keys == KeyList(domain)
  {
    keys := [];
    var rest := domain;
    while rest != {}
      invariant Ascending(keys) && Elems(keys) !! rest && Elems(keys) + rest == domain
      decreases rest
    {
      var x :| x in rest;
      assert x !in Elems(keys);
      InsertKeepsOrder(keys, x);
      keys, rest := InsertKey(keys, x), rest - {x};
    }
    MapOrderIsUnique(keys, KeyList(domain), domain);
  }
}
