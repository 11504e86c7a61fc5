/** For which values the replace-and-search-again loop of get_string ends on every template
    (src/sandbox/utility.hpp:33-35). */
module ReplacementLoop {
  import opened StringFormatter

  // ---------- Values that make it run forever ----------

  ghost predicate StartsTwice(val: string) {
    |val| >= 2 && val[0] == '}' && val[1] == '}'
  }

  ghost predicate EndsTwice(val: string) {
    |val| >= 2 && val[|val| - 2] == '{' && val[|val| - 1] == '{'
  }

  /** A placeholder with a brace of the same pair beside it: "{{}" or "{}}". */
  ghost predicate TightAt(s: string, q: int) {
    0 <= q && q + 2 < |s| && s[q] == '{' && (s[q + 1] == '{' || s[q + 1] == '}') && s[q + 2] == '}'
  }

  ghost predicate Tight(s: string) {
    exists q :: TightAt(s, q)
  }

  lemma TightStays(s: string, val: string)
    requires StartsTwice(val) && EndsTwice(val) && Tight(s)
    ensures HasHole(s) && Tight(Replace(s, val))
  {
    var q :| TightAt(s, q);
    var hole := if s[q + 1] == '{' then q + 1 else q;
    assert HoleAt(s, hole);
    var p := Find(s);
    var r := Replace(s, val);
    if p < hole {
      assert r[p + |val|..] == s[p + 2..];
      assert TightAt(r, q + |val| - 2);
    } else if hole == q + 1 {
      assert TightAt(r, q);
    } else {
      assert TightAt(r, q + |val| - 2);
    }
  }

  /** A value between "}}" and "{{" makes the loop run forever on every template that has "{{}" or
      "{}}" in it. */
  lemma {:induction false} CrossedBracesNeverEnd(s: string, val: string, n: nat)
    requires StartsTwice(val) && EndsTwice(val) && Tight(s)
    ensures HasHole(Rescan(s, val, n))
    decreases n
  {
    TightStays(s, val);
    if n > 0 { CrossedBracesNeverEnd(Replace(s, val), val, n - 1); }
  }

  // ---------- Values that start with at most one closing brace ----------

  /** The string is a + lead + u + b, where the value is lead + v, a is hole-free, and u is hole-free
      and does not start with a closing brace. Each replacement shortens b, or keeps b and
      shortens a. */
  lemma {:induction false} SingleLeadEnds(val: string, lead: string, v: string, a: string, u: string, b: string)
    returns (n: nat)
    requires val == lead + v && (lead == "" || lead == "}")
    requires !HasHole(v) && (v == "" || v[0] != '}')
    requires !HasHole(a) && !HasHole(u) && (u == "" || u[0] != '}')
    ensures !HasHole(Rescan(a + lead + u + b, val, n))
    decreases |b|, |a|
  {
    var s := a + lead + u + b;
    hide HasHole, Find, Replace, Rescan;
    if lead == "}" && a != "" && a[|a| - 1] == '{' {
      BackwardStep(v, a, u, b);
      n := SingleLeadEnds(val, lead, v, a[..|a| - 1], v + u, b);
    } else if Find(s) == -1 {
      RescanOnce(s, val, 0);
      return 0;
    } else {
      ForwardStep(lead, v, a, u, b);
      n := SingleLeadEnds(val, lead, v, s[..Find(s)], v, s[Find(s) + 2..]);
    }
    RescanOnce(s, val, n);
    n := n + 1;
  }

  lemma RescanOnce(s: string, val: string, n: nat)
    ensures Find(s) != -1 ==> Rescan(s, val, n + 1) == Rescan(Replace(s, val), val, n)
    ensures Find(s) == -1 ==> Rescan(s, val, n) == s
  {}

  /** The hole is made of the last brace of a and the lead. */
  lemma BackwardStep(v: string, a: string, u: string, b: string)
    requires !HasHole(v) && (v == "" || v[0] != '}')
    requires !HasHole(a) && !HasHole(u) && (u == "" || u[0] != '}')
    requires a != "" && a[|a| - 1] == '{'
    ensures var s := a + "}" + u + b;
            && Find(s) == |a| - 1
            && Replace(s, "}" + v) == a[..|a| - 1] + "}" + (v + u) + b
            && !HasHole(a[..|a| - 1]) && !HasHole(v + u)
  {
    var s, rest := a + "}" + u + b, u + b;
    assert s == a + "}" + rest;
    FirstAtJoint(a, rest);
    NoHoleInConcat(v, u);
    NoHoleInPrefix(a, |a| - 1);
    hide HoleAt, HasHole, Find;
    assert s[..|a| - 1] == a[..|a| - 1] && s[|a| + 1..] == rest;
  }

  /** The hole ends in b. */
  lemma ForwardStep(lead: string, v: string, a: string, u: string, b: string)
    requires lead == "" || (lead == "}" && (a == "" || a[|a| - 1] != '{'))
    requires !HasHole(a) && !HasHole(u) && (u == "" || u[0] != '}')
    requires Find(a + lead + u + b) != -1
    ensures var s, p := a + lead + u + b, Find(a + lead + u + b);
            && Replace(s, lead + v) == s[..p] + lead + v + s[p + 2..]
            && !HasHole(s[..p]) && |s[p + 2..]| < |b|
  {
    var s, p, done := a + lead + u + b, Find(a + lead + u + b), a + lead + u;
    DoneIsHoleFree(a, lead, u);
    assert p + 1 < |done| ==> HoleAt(done, p);
    NoHoleInPrefix(s, p);
  }

  lemma NoHoleInPrefix(s: string, p: nat)
    requires p <= |s| && forall i :: 0 <= i < p - 1 ==> !HoleAt(s, i)
    ensures !HasHole(s[..p])
  {
    assert forall i :: HoleAt(s[..p], i) ==> HoleAt(s, i);
  }

  lemma FirstAtJoint(a: string, rest: string)
    requires !HasHole(a) && a != "" && a[|a| - 1] == '{'
    ensures Find(a + "}" + rest) == |a| - 1
  {
    var s := a + "}" + rest;
    assert HoleAt(s, |a| - 1);
    assert forall i :: 0 <= i < |a| - 1 && HoleAt(s, i) ==> HoleAt(a, i);
    FindIs(s, |a| - 1);
  }

  lemma DoneIsHoleFree(a: string, lead: string, u: string)
    requires !HasHole(a) && !HasHole(u) && (u == "" || u[0] != '}')
    requires lead == "" || (lead == "}" && (a == "" || a[|a| - 1] != '{'))
    ensures !HasHole(a + lead + u)
  {
    NoHoleInConcat(a, lead);
    NoHoleInConcat(a + lead, u);
  }

  lemma EndsUnlessStartsTwice(format: string, val: string) returns (n: nat)
    requires !HasHole(val) && !StartsTwice(val)
    ensures !HasHole(Rescan(format, val, n))
  {
    if Find(format) == -1 { return 0; }
    var p := Find(format);
    var lead := if val != "" && val[0] == '}' then "}" else "";
    var v := val[|lead|..];
    assert forall i :: HoleAt(v, i) ==> HoleAt(val, i + |lead|);
    NoHoleInPrefix(format, p);
    assert Replace(format, val) == format[..p] + lead + v + format[p + 2..];
    n := SingleLeadEnds(val, lead, v, format[..p], v, format[p + 2..]);
    n := n + 1;
  }

  // ---------- The order of the replacements does not matter ----------

  function ReplaceAt(s: string, val: string, p: nat): string
    requires HoleAt(s, p)
  {
    s[..p] + val + s[p + 2..]
  }

  /** Replacing the holes at these places, one after the other, leaves no placeholder. */
  ghost predicate Finishes(s: string, val: string, ps: seq<nat>)
    decreases |ps|
  {
    if ps == [] then !HasHole(s) else HoleAt(s, ps[0]) && Finishes(ReplaceAt(s, val, ps[0]), val, ps[1..])
  }

  /** Where a hole at p is after a replacement at q. */
  function Moved(p: nat, q: nat, val: string): int {
    if p < q then p else p + |val| - 2
  }

  lemma ReplacementsCommute(s: string, val: string, p: nat, q: nat)
    requires HoleAt(s, p) && HoleAt(s, q) && p != q
    ensures Moved(p, q, val) >= 0 && HoleAt(ReplaceAt(s, val, q), Moved(p, q, val))
    ensures Moved(q, p, val) >= 0 && HoleAt(ReplaceAt(s, val, p), Moved(q, p, val))
    ensures ReplaceAt(ReplaceAt(s, val, q), val, Moved(p, q, val)) ==
            ReplaceAt(ReplaceAt(s, val, p), val, Moved(q, p, val))
  {
    if p < q { CommuteInOrder(s, val, p, q); } else { CommuteInOrder(s, val, q, p); }
  }

  lemma CommuteInOrder(s: string, val: string, p: nat, q: nat)
    requires HoleAt(s, p) && HoleAt(s, q) && p < q
    ensures HoleAt(ReplaceAt(s, val, q), p) && HoleAt(ReplaceAt(s, val, p), q + |val| - 2)
    ensures ReplaceAt(ReplaceAt(s, val, q), val, p) == ReplaceAt(ReplaceAt(s, val, p), val, q + |val| - 2)
  {
    assert p + 2 <= q;
    var left, right := ReplaceAt(s, val, p), ReplaceAt(s, val, q);
    var mid := s[p + 2..q];
    assert left == s[..p] + val + mid + s[q..];
    assert right == s[..p] + s[p..p + 2] + mid + val + s[q + 2..];
    assert s[q..][2..] == s[q + 2..];
    assert ReplaceAt(right, val, p) == s[..p] + val + mid + val + s[q + 2..];
    assert ReplaceAt(left, val, q + |val| - 2) == s[..p] + val + mid + val + s[q + 2..];
  }

  lemma FinishesFrom(s: string, val: string, p: nat, ps: seq<nat>)
    requires HoleAt(s, p) && Finishes(ReplaceAt(s, val, p), val, ps)
    ensures Finishes(s, val, [p] + ps)
  {
    assert ([p] + ps)[1..] == ps;
  }

  lemma FinishesUnfold(s: string, val: string, ps: seq<nat>)
    requires Finishes(s, val, ps) && HasHole(s)
    ensures ps != [] && HoleAt(s, ps[0]) && Finishes(ReplaceAt(s, val, ps[0]), val, ps[1..])
  {}

  /** If some replacements finish the job, then so do as many that begin with the hole at p. */
  lemma {:induction false} AnyOrder(s: string, val: string, ps: seq<nat>, p: nat) returns (qs: seq<nat>)
    requires Finishes(s, val, ps) && HoleAt(s, p)
    ensures ps != [] && |qs| == |ps| - 1 && Finishes(ReplaceAt(s, val, p), val, qs)
    decreases |ps|
  {
    assert HasHole(s);
    FinishesUnfold(s, val, ps);
    var q := ps[0];
    if p == q { return ps[1..]; }
    ReplacementsCommute(s, val, p, q);
    hide *;
    qs := AnyOrder(ReplaceAt(s, val, q), val, ps[1..], Moved(p, q, val));
    FinishesFrom(ReplaceAt(s, val, p), val, Moved(q, p, val), qs);
    qs := [Moved(q, p, val)] + qs;
  }

  lemma {:induction false} FinishingMeansEnding(s: string, val: string, ps: seq<nat>)
    requires Finishes(s, val, ps)
    ensures !HasHole(Rescan(s, val, |ps|))
    decreases |ps|
  {
    RescanOnce(s, val, |ps|);
    if Find(s) != -1 {
      var qs := AnyOrder(s, val, ps, Find(s));
      FinishingMeansEnding(Replace(s, val), val, qs);
      RescanOnce(s, val, |qs|);
    }
  }

  lemma {:induction false} EndingMeansFinishing(s: string, val: string, n: nat) returns (ps: seq<nat>)
    requires !HasHole(Rescan(s, val, n))
    ensures Finishes(s, val, ps)
    decreases n
  {
    if Find(s) == -1 { return []; }
    ps := EndingMeansFinishing(Replace(s, val), val, n - 1);
    FinishesFrom(s, val, Find(s), ps);
    ps := [Find(s)] + ps;
  }

  // ---------- Values that end in at most one opening brace, by reflection ----------

  function Flip(c: char): char {
    if c == '{' then '}' else if c == '}' then '{' else c
  }

  /** Read from right to left, with opening and closing braces exchanged. */
  function Mirror(s: string): (r: string)
    ensures |r| == |s| && forall i :: 0 <= i < |s| ==> r[i] == Flip(s[|s| - 1 - i])
  {
    seq(|s|, i requires 0 <= i < |s| => Flip(s[|s| - 1 - i]))
  }

  lemma MirrorTwice(s: string)
    ensures Mirror(Mirror(s)) == s
  {}

  lemma MirrorReplaceAt(s: string, val: string, p: nat)
    requires HoleAt(s, p)
    ensures HoleAt(Mirror(s), |s| - 2 - p)
    ensures Mirror(ReplaceAt(s, val, p)) == ReplaceAt(Mirror(s), Mirror(val), |s| - 2 - p)
  {}

  lemma {:induction false} MirrorFinishes(s: string, val: string, ps: seq<nat>) returns (qs: seq<nat>)
    requires Finishes(s, val, ps)
    ensures Finishes(Mirror(s), Mirror(val), qs)
    decreases |ps|
  {
    if ps == [] {
      MirrorHoleFree(s);
      return [];
    }
    MirrorReplaceAt(s, val, ps[0]);
    qs := MirrorFinishes(ReplaceAt(s, val, ps[0]), val, ps[1..]);
    var p := |s| - 2 - ps[0];
    FinishesFrom(Mirror(s), Mirror(val), p, qs);
    qs := [p] + qs;
  }

  lemma MirrorHoleFree(s: string)
    requires !HasHole(s)
    ensures !HasHole(Mirror(s))
  {
    assert forall i :: HoleAt(Mirror(s), i) ==> HoleAt(s, |s| - 2 - i);
  }

  lemma EndsUnlessEndsTwice(format: string, val: string) returns (n: nat)
    requires !HasHole(val) && !EndsTwice(val)
    ensures !HasHole(Rescan(format, val, n))
  {
    MirrorHoleFree(val);
    n := EndsUnlessStartsTwice(Mirror(format), Mirror(val));
    var ps := EndingMeansFinishing(Mirror(format), Mirror(val), n);
    ps := MirrorFinishes(Mirror(format), Mirror(val), ps);
    MirrorTwice(format);
    MirrorTwice(val);
    FinishingMeansEnding(format, val, ps);
    n := |ps|;
  }

  // ---------- Exactly when it ends ----------

  /** The loop ends on every template, if and only if the value holds no placeholder and does not
      both start with two closing and end in two opening braces. */
  lemma EndsOnEveryTemplateIff(val: string)
    ensures (forall format :: Ends(format, val)) <==> !HasHole(val) && !(StartsTwice(val) && EndsTwice(val))
  {
    if HasHole(val) {
      assert HoleAt("{}", 0);
      forall n: nat ensures HasHole(Rescan("{}", val, n)) { HoleInValueNeverEnds("{}", val, n); }
      assert !Ends("{}", val);
    } else if StartsTwice(val) && EndsTwice(val) {
      assert TightAt("{{}", 0);
      forall n: nat ensures HasHole(Rescan("{{}", val, n)) { CrossedBracesNeverEnd("{{}", val, n); }
      assert !Ends("{{}", val);
    } else {
      forall format ensures Ends(format, val) {
        var n;
        if StartsTwice(val) { n := EndsUnlessEndsTwice(format, val); } else { n := EndsUnlessStartsTwice(format, val); }
      }
    }
  }
}
