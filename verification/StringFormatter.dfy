/** Expansion of "{}" in path templates by repeated replacement (src/sandbox/utility.hpp:29-37). */
module StringFormatter {

  /** A placeholder starts at position i. */
  predicate HoleAt(s: string, i: int) {
    0 <= i && i + 1 < |s| && s[i] == '{' && s[i + 1] == '}'
  }

  ghost predicate HasHole(s: string) {
    exists i :: HoleAt(s, i)
  }

  /** std::string::find of the placeholder: the first hole, or -1. */
  function Find(s: string): (r: int)
    ensures r == -1 ==> !HasHole(s)
    ensures r != -1 ==> HoleAt(s, r) && forall i :: 0 <= i < r ==> !HoleAt(s, i)
  {
    if |s| < 2 then -1
    else if HoleAt(s, 0) then 0
    else
      var r := Find(s[1..]);
      assert forall i :: i > 0 ==> (HoleAt(s, i) <==> HoleAt(s[1..], i - 1));
      if r == -1 then -1 else r + 1
  }

  /** One pass from left to right over the template. */
  function Substitute(format: string, val: string): string {
    if HoleAt(format, 0) then val + Substitute(format[2..], val)
    else if format == "" then ""
    else [format[0]] + Substitute(format[1..], val)
  }

  /** The value can neither be, complete, nor leave behind a placeholder. */
  ghost predicate Clean(val: string) {
    val != "" && val[0] != '}' && val[|val| - 1] != '{' && !HasHole(val)
  }

  lemma NoHoleInConcat(a: string, b: string)
    requires !HasHole(a) && !HasHole(b)
    requires a == "" || b == "" || a[|a| - 1] != '{' || b[0] != '}'
    ensures !HasHole(a + b)
  {
    forall i ensures !HoleAt(a + b, i) {
      assert HoleAt(a + b, i) && i + 1 < |a| ==> HoleAt(a, i);
      assert HoleAt(a + b, i) && i >= |a| ==> HoleAt(b, i - |a|);
    }
  }

  lemma {:induction false} SubstituteIsComplete(format: string, val: string)
    requires Clean(val)
    ensures !HasHole(Substitute(format, val))
    ensures var r := Substitute(format, val); r != "" && r[0] == '}' ==> format != "" && format[0] == '}'
    decreases |format|
  {
    if HoleAt(format, 0) {
      SubstituteIsComplete(format[2..], val);
      NoHoleInConcat(val, Substitute(format[2..], val));
    } else if format != "" {
      SubstituteIsComplete(format[1..], val);
      NoHoleInConcat([format[0]], Substitute(format[1..], val));
    }
  }

  /** A single pass leaves no placeholder. */
  ghost predicate Complete(format: string, val: string) {
    !HasHole(Substitute(format, val))
  }

  /** A template on which an unclean value leaves a placeholder behind. */
  ghost function DirtyTemplate(val: string): string {
    if val == "" then "{{}}" else if HasHole(val) then "{}" else if val[0] == '}' then "{{}" else "{}}"
  }

  lemma DirtyLeavesHole(val: string)
    requires !Clean(val)
    ensures HasHole(Substitute(DirtyTemplate(val), val))
  {
    var format := DirtyTemplate(val);
    if val == "" {
      assert format[1..][2..] == "}" && Substitute("}", val) == "}";
      assert Substitute(format[1..], val) == "}";
      assert Substitute(format, val) == "{}";
      assert HoleAt(Substitute(format, val), 0);
    } else if HasHole(val) {
      assert format[2..] == "" && Substitute(format, val) == val;
    } else if val[0] == '}' {
      assert format[1..] == "{}" && format[1..][2..] == "";
      assert Substitute(format[1..], val) == val;
      assert HoleAt(Substitute(format, val), 0);
    } else {
      assert format[2..] == "}" && Substitute("}", val) == "}";
      assert Substitute(format, val) == val + "}";
      assert HoleAt(Substitute(format, val), |val| - 1);
    }
  }

  // ---------- Replacing and searching again ----------

  function Replace(s: string, val: string): string
    requires Find(s) != -1
  {
    s[..Find(s)] + val + s[Find(s) + 2..]
  }

  /** The string after n rounds of the loop; it stays as it is once no placeholder is left. */
  function Rescan(s: string, val: string, n: nat): string
    decreases n
  {
    if n == 0 || Find(s) == -1 then s else Rescan(Replace(s, val), val, n - 1)
  }

  /** The loop ends. */
  ghost predicate Ends(format: string, val: string) {
    exists n: nat :: !HasHole(Rescan(format, val, n))
  }

  lemma {:induction false} RescanEndsOnce(s: string, val: string, a: nat, b: nat)
    requires !HasHole(Rescan(s, val, a)) && !HasHole(Rescan(s, val, b))
    ensures Rescan(s, val, a) == Rescan(s, val, b)
    decreases a
  {
    if Find(s) != -1 { RescanEndsOnce(Replace(s, val), val, a - 1, b - 1); }
  }

  /** If the value itself holds a placeholder, the loop never ends on a template that has one. */
  lemma {:induction false} HoleInValueNeverEnds(s: string, val: string, n: nat)
    requires HasHole(val) && HasHole(s)
    ensures HasHole(Rescan(s, val, n))
    decreases n
  {
    if n > 0 {
      var i :| HoleAt(val, i);
      assert HoleAt(Replace(s, val), Find(s) + i);
      HoleInValueNeverEnds(Replace(s, val), val, n - 1);
    }
  }

  // ---------- Templates as the text between their placeholders ----------

  function Glue(parts: seq<string>, between: string): string
    requires parts != []
  {
    if |parts| == 1 then parts[0] else parts[0] + between + Glue(parts[1..], between)
  }

  ghost predicate HoleFree(parts: seq<string>) {
    parts != [] && forall i :: 0 <= i < |parts| ==> !HasHole(parts[i])
  }

  /** Every template is some text with a placeholder after each part but the last. */
  lemma {:induction false} TemplateIsGlued(format: string) returns (parts: seq<string>)
    ensures HoleFree(parts) && Glue(parts, "{}") == format
    decreases |format|
  {
    var p := Find(format);
    if p == -1 { return [format]; }
    var rest := TemplateIsGlued(format[p + 2..]);
    parts := [format[..p]] + rest;
    assert parts[1..] == rest;
    assert format == format[..p] + "{}" + format[p + 2..];
    assert forall i :: HoleAt(format[..p], i) ==> HoleAt(format, i);
  }

  /** Text that is hole-free stays, and the first placeholder after it becomes the value. */
  lemma ReplaceIs(a: string, b: string, val: string)
    requires !HasHole(a)
    ensures Find(a + "{}" + b) == |a| && Replace(a + "{}" + b, val) == a + val + b
  {
    var s := a + "{}" + b;
    assert forall i :: 0 <= i < |a| && HoleAt(s, i) ==> HoleAt(a, i);
    FindIs(s, |a|);
    assert s[|a| + 2..] == b;
  }

  lemma SubstituteFirst(a: string, b: string, val: string)
    requires !HasHole(a)
    ensures Substitute(a + "{}" + b, val) == a + val + Substitute(b, val)
    ensures Substitute(a, val) == a
  {
    var format := a + "{}" + b;
    ReplaceIs(a, b, val);
    SubstituteCopies(format, val, |a|);
    SubstituteCopies(a, val, |a|);
    assert format[..|a|] == a && format[|a|..] == "{}" + b && a[..|a|] == a && a[|a|..] == "";
    hide Find, Replace, HasHole;
    assert ("{}" + b)[2..] == b;
  }

  /** One pass puts the value for each placeholder, and changes nothing else. */
  lemma {:induction false} SubstituteFillsIn(parts: seq<string>, val: string)
    requires HoleFree(parts)
    ensures Substitute(Glue(parts, "{}"), val) == Glue(parts, val)
    decreases |parts|
  {
    if |parts| == 1 {
      SubstituteFirst(parts[0], "", val);
    } else {
      SubstituteFillsIn(parts[1..], val);
      SubstituteFirst(parts[0], Glue(parts[1..], "{}"), val);
    }
  }

  lemma FindIs(s: string, p: nat)
    requires HoleAt(s, p) && forall i :: 0 <= i < p ==> !HoleAt(s, i)
    ensures Find(s) == p
  {}

  /** A part of the template without placeholder is copied. */
  lemma {:induction false} SubstituteCopies(format: string, val: string, p: nat)
    requires p <= |format| && forall i :: 0 <= i < p ==> !HoleAt(format, i)
    ensures Substitute(format, val) == format[..p] + Substitute(format[p..], val)
    decreases p
  {
    if p > 0 {
      assert forall i :: HoleAt(format[1..], i) ==> HoleAt(format, i + 1);
      SubstituteCopies(format[1..], val, p - 1);
      assert format[1..][p - 1..] == format[p..];
      assert format[..p] == [format[0]] + format[1..][..p - 1];
    } else {
      assert format[p..] == format;
    }
  }

  /** get_string, on every template and value on which the source's loop ends at all: the result
      holds no placeholder, is what any sufficient number of rounds gives, and for a clean value
      equals one pass. */
  method GetString(format: string, val: string) returns (result: string)
    requires Ends(format, val)
    ensures !HasHole(result)
    ensures forall n: nat :: !HasHole(Rescan(format, val, n)) ==> result == Rescan(format, val, n)
    ensures Clean(val) ==> result == Substitute(format, val)
    ensures Clean(val) ==> forall parts :: HoleFree(parts) && format == Glue(parts, "{}") ==> result == Glue(parts, val)
  {
    result := format;
    ghost var total: nat :| !HasHole(Rescan(format, val, total));
    ghost var left := total;
    while Find(result) != -1
      invariant Rescan(result, val, left) == Rescan(format, val, total)
      decreases left
    {
      var pos := Find(result);
      result := result[..pos] + val + result[pos + 2..];
      left := left - 1;
    }
    forall n: nat | !HasHole(Rescan(format, val, n)) ensures result == Rescan(format, val, n) {
      RescanEndsOnce(format, val, total, n);
    }
    if Clean(val) {
      assert "" + format == format;
      var n := RescanReaches(format, val, "", format);
      SubstituteIsComplete(format, val);
      forall parts | HoleFree(parts) && format == Glue(parts, "{}") ensures result == Glue(parts, val) {
        SubstituteFillsIn(parts, val);
      }
    }
  }

  /** done is finished output, todo the part of the template still to be treated. */
  ghost predicate Progress(format: string, val: string, done: string, todo: string) {
    && Substitute(format, val) == done + Substitute(todo, val)
    && !HasHole(done) && (done == "" || done[|done| - 1] != '{')
  }

  lemma ReplaceStep(format: string, val: string, done: string, todo: string, pos: int) returns (p: nat)
    requires Clean(val) && Progress(format, val, done, todo)
    requires HoleAt(done + todo, pos) && forall i :: 0 <= i < pos ==> !HoleAt(done + todo, i)
    ensures p + 2 <= |todo| && Progress(format, val, done + todo[..p] + val, todo[p + 2..])
    ensures (done + todo)[..pos] + val + (done + todo)[pos + 2..] == done + todo[..p] + val + todo[p + 2..]
  {
    hide HoleAt, HasHole, Clean, Substitute;
    FirstHoleIsInTodo(done, todo, pos);
    p := pos - |done|;
    AdvanceDone(val, done, todo, p);
    hide *;
    assert (done + todo)[..pos] == done + todo[..p] && (done + todo)[pos + 2..] == todo[p + 2..];
  }

  lemma {:induction false} RescanReaches(format: string, val: string, done: string, todo: string) returns (n: nat)
    requires Clean(val) && Progress(format, val, done, todo)
    ensures Rescan(done + todo, val, n) == Substitute(format, val)
    decreases |todo|
  {
    if Find(done + todo) == -1 {
      NothingLeft(format, val, done, todo);
      n := 0;
    } else {
      var p := ReplaceStep(format, val, done, todo, Find(done + todo));
      n := RescanReaches(format, val, done + todo[..p] + val, todo[p + 2..]);
      n := n + 1;
    }
  }

  /** The loop ends, with the result of one pass. */
  ghost predicate EndsInOnePass(format: string, val: string) {
    exists n: nat :: Rescan(format, val, n) == Substitute(format, val) && !HasHole(Rescan(format, val, n))
  }

  /** On every template the replace-and-rescan loop ends with the result of a single pass, and a
      single pass leaves no placeholder on any template: both hold if and only if the value is clean. */
  lemma RescanIsOnePassIffClean(val: string)
    ensures Clean(val) <==> forall format :: EndsInOnePass(format, val)
    ensures Clean(val) <==> forall format :: Complete(format, val)
  {
    if Clean(val) {
      forall format ensures EndsInOnePass(format, val) && Complete(format, val) {
        assert "" + format == format;
        var n := RescanReaches(format, val, "", format);
        SubstituteIsComplete(format, val);
      }
    } else {
      DirtyLeavesHole(val);
      assert !EndsInOnePass(DirtyTemplate(val), val) && !Complete(DirtyTemplate(val), val);
    }
  }

  lemma NothingLeft(format: string, val: string, done: string, todo: string)
    requires Progress(format, val, done, todo) && !HasHole(done + todo)
    ensures Substitute(format, val) == done + todo
  {
    assert forall i :: HoleAt(todo, i) ==> HoleAt(done + todo, |done| + i);
    SubstituteCopies(todo, val, |todo|);
    assert todo[..|todo|] == todo && todo[|todo|..] == "";
  }

  lemma AdvanceDone(val: string, done: string, todo: string, p: nat)
    requires Clean(val) && HoleAt(todo, p) && !HasHole(todo[..p])
    requires forall i :: 0 <= i < p ==> !HoleAt(todo, i)
    requires !HasHole(done) && (done == "" || done[|done| - 1] != '{')
    ensures var d := done + todo[..p] + val;
            && done + Substitute(todo, val) == d + Substitute(todo[p + 2..], val)
            && !HasHole(d) && d != "" && d[|d| - 1] != '{'
  {
    SubstituteCopies(todo, val, p);
    assert todo[p..][2..] == todo[p + 2..];
    NoHoleInConcat(done, todo[..p]);
    NoHoleInConcat(done + todo[..p], val);
  }

  lemma FirstHoleIsInTodo(done: string, todo: string, pos: int)
    requires HoleAt(done + todo, pos) && forall i :: 0 <= i < pos ==> !HoleAt(done + todo, i)
    requires !HasHole(done) && (done == "" || done[|done| - 1] != '{')
    ensures pos >= |done| && HoleAt(todo, pos - |done|) && !HasHole(todo[..pos - |done|])
    ensures forall i :: 0 <= i < pos - |done| ==> !HoleAt(todo, i)
  {
    assert pos + 1 < |done| ==> HoleAt(done, pos);
    assert forall i :: HoleAt(todo, i) ==> HoleAt(done + todo, |done| + i);
    var p := pos - |done|;
    assert forall i :: HoleAt(todo[..p], i) ==> HoleAt(todo, i);
  }
}
