/** Parsing of "1,3,4-5" lists of tests and of lists of group names (src/sandbox/group.cpp). */
module ItemLists {
  import opened EqualString
  import opened StringFormatter

  // ---------- Cutting at a delimiter ----------

  /** std::string::find of a character from a position: its first index, or -1. */
  function FindFrom(s: string, c: char, from: nat): (r: int)
    requires from <= |s|
    ensures r == -1 ==> c !in s[from..]
    ensures r != -1 ==> from <= r < |s| && s[r] == c && c !in s[from..r]
    ensures forall k :: from <= k < (if r == -1 then |s| else r) ==> s[k] != c
    decreases |s| - from
  {
    if from == |s| then -1
    else if s[from] == c then from
    else
      var r := FindFrom(s, c, from + 1);
      assert s[from..] == [s[from]] + s[from + 1..];
      assert r != -1 ==> s[from..r] == [s[from]] + s[from + 1..r];
      r
  }

  /** The pieces between the commas; there is always at least one. */
  function Split(s: string): (ps: seq<string>)
    ensures ps != []
  {
    if s == "" then [""]
    else
      var rest := Split(s[1..]);
      if s[0] == ',' then [""] + rest else [[s[0]] + rest[0]] + rest[1..]
  }

  function Join(ps: seq<string>): string
    requires ps != []
  {
    if |ps| == 1 then ps[0] else ps[0] + "," + Join(ps[1..])
  }

  /** The pieces, rejoined with commas, give the text back, and no piece holds a comma. */
  lemma {:induction false} JoinSplit(s: string)
    ensures Join(Split(s)) == s && forall p :: p in Split(s) ==> ',' !in p
  {
    if s != "" {
      JoinSplit(s[1..]);
      var rest := Split(s[1..]);
      if s[0] == ',' {
        assert ([""] + rest)[1..] == rest;
        assert "" + "," + s[1..] == s;
      } else {
        assert s == [s[0]] + s[1..];
        assert rest[0] in rest;
        if |rest| > 1 {
          assert Split(s)[1..] == rest[1..];
          assert [s[0]] + rest[0] + "," + Join(rest[1..]) == [s[0]] + (rest[0] + "," + Join(rest[1..]));
        }
      }
    }
  }

  lemma {:induction false} SplitAtComma(p: string, rest: string)
    requires ',' !in p
    ensures Split(p + "," + rest) == [p] + Split(rest)
    ensures Split(p) == [p]
  {
    if p == "" {
      assert p + "," + rest == "," + rest;
    } else {
      assert (p + "," + rest)[1..] == p[1..] + "," + rest;
      SplitAtComma(p[1..], rest);
      assert [p[0]] + p[1..] == p;
    }
  }

  /** Rendered pieces are cut where they were joined. */
  lemma {:induction false} SplitJoin(ps: seq<string>)
    requires ps != [] && forall p :: p in ps ==> ',' !in p
    ensures Split(Join(ps)) == ps
  {
    assert ps[0] in ps && forall p :: p in ps[1..] ==> p in ps;
    if |ps| == 1 {
      SplitAtComma(ps[0], "");
    } else {
      SplitJoin(ps[1..]);
      SplitAtComma(ps[0], Join(ps[1..]));
    }
  }

  // ---------- The list loop ----------

  const INT_MAX := 0x7fff_ffff
  const INT_MIN := -0x8000_0000

  // The items of one piece; std::invalid_argument; std::out_of_range, which nobody catches; or
  // an increment past INT_MAX, which is undefined.
  datatype Items<T> = Items(list: seq<T>) | Invalid | OutOfRange | Overflow

  /** The pieces in turn; an invalid piece makes the whole list empty. */
  function Collect<T>(ps: seq<string>, add: string -> Items<T>, acc: seq<T>): Items<T> {
    if ps == [] then Items(acc)
    else
      match add(ps[0])
      case Items(list) => Collect(ps[1..], add, acc + list)
      case Invalid => Items([])
      case OutOfRange => OutOfRange
      case Overflow => Overflow
  }

  /** The lists of all pieces, one after the other. */
  ghost function Chained<T>(ps: seq<string>, add: string -> Items<T>): seq<T>
    requires forall p :: p in ps ==> add(p).Items?
  {
    if ps == [] then []
    else
      assert ps[0] in ps && forall p :: p in ps[1..] ==> p in ps;
      add(ps[0]).list + Chained(ps[1..], add)
  }

  /** Piece k is the first that is not a list of items. */
  ghost predicate FirstBad<T>(ps: seq<string>, add: string -> Items<T>, k: nat) {
    k < |ps| && !add(ps[k]).Items? && forall i :: 0 <= i < k ==> add(ps[i]).Items?
  }

  /** The result is the chain of all lists or, from the first piece that is none: nothing at all if
      that piece is invalid, and otherwise its error. */
  ghost predicate Collected<T>(ps: seq<string>, add: string -> Items<T>, acc: seq<T>, r: Items<T>) {
    && ((forall p :: p in ps ==> add(p).Items?) ==> r == Items(acc + Chained(ps, add)))
    && (forall k: nat :: FirstBad(ps, add, k) ==> r == if add(ps[k]) == Invalid then Items([]) else add(ps[k]))
  }

  lemma {:induction false} CollectIs<T>(ps: seq<string>, add: string -> Items<T>, acc: seq<T>)
    ensures Collected(ps, add, acc, Collect(ps, add, acc))
  {
    var r := Collect(ps, add, acc);
    if ps == [] {
      assert acc + [] == acc;
    } else if add(ps[0]).Items? {
      var next := acc + add(ps[0]).list;
      CollectIs(ps[1..], add, next);
      assert ps == [ps[0]] + ps[1..];
      if forall p :: p in ps ==> add(p).Items? {
        assert next + Chained(ps[1..], add) == acc + Chained(ps, add);
      }
      forall k: nat ensures FirstBad(ps, add, k) ==> k > 0 && FirstBad(ps[1..], add, k - 1) {
        if FirstBad(ps, add, k) { FirstBadTail(ps, add, k); }
      }
      hide FirstBad, Chained;
    } else {
      assert ps[0] in ps;
      forall k: nat | FirstBad(ps, add, k) ensures k == 0 {}
      hide FirstBad;
    }
  }

  lemma FirstBadTail<T>(ps: seq<string>, add: string -> Items<T>, k: nat)
    requires FirstBad(ps, add, k) && add(ps[0]).Items?
    ensures k > 0 && FirstBad(ps[1..], add, k - 1)
  {
    assert forall i :: 0 <= i < k - 1 ==> ps[1..][i] == ps[i + 1];
  }

  lemma NextPiece(text: string, previous: nat, current: nat)
    requires previous <= current < |text| && text[current] == ',' && ',' !in text[previous..current]
    ensures var ps := Split(text[previous..]);
            ps[0] == text[previous..current] && ps[1..] == Split(text[current + 1..])
  {
    var piece := text[previous..current];
    SplitAtComma(piece, text[current + 1..]);
    assert text[previous..] == piece + "," + text[current + 1..];
  }

  lemma LastPiece(text: string)
    requires ',' !in text
    ensures Split(text) == [text]
  {
    SplitAtComma(text, "");
  }

  /** convert_item_list: the loop over find and substr treats exactly the pieces, in order. */
  method ConvertItemList<T>(text: string, add: string -> Items<T>) returns (r: Items<T>)
    ensures r == Collect(Split(text), add, [])
    ensures Collected(Split(text), add, [], r)
  {
    CollectIs(Split(text), add, []);
    hide Collected;
    var tests: seq<T> := [];
    var previous, current := 0, FindFrom(text, ',', 0);
    assert text[0..] == text;
    while current != -1
      invariant 0 <= previous <= |text| && current == FindFrom(text, ',', previous)
      invariant Collect(Split(text), add, []) == Collect(Split(text[previous..]), add, tests)
      decreases |text| - previous
    {
      var piece := text[previous..current];
      NextPiece(text, previous, current);
      match add(piece) {
        case Items(list) => tests := tests + list;
        case Invalid => return Items([]);
        case OutOfRange => return OutOfRange;
        case Overflow => return Overflow;
      }
      previous := current + 1;
      current := FindFrom(text, ',', previous);
    }
    LastPiece(text[previous..]);
    match add(text[previous..])
    case Items(list) => return Items(tests + list);
    case Invalid => return Items([]);
    case OutOfRange => return OutOfRange;
    case Overflow => return Overflow;
  }

  // ---------- Names ----------

  function NameItem(id: string): Items<string> {
    Items([id])
  }

  lemma {:induction false} NamesAreThePieces(ps: seq<string>, acc: seq<string>)
    ensures Collect(ps, NameItem, acc) == Items(acc + ps)
  {
    if ps != [] {
      NamesAreThePieces(ps[1..], acc + [ps[0]]);
      assert acc + [ps[0]] + ps[1..] == acc + ps;
    } else {
      assert acc + ps == acc;
    }
  }

  // ---------- Numbers ----------

  predicate IsDigit(c: char) { '0' <= c <= '9' }

  function DigitPrefix(s: string): (d: string)
    ensures d <= s && forall c :: c in d ==> IsDigit(c)
  {
    if s == "" || !IsDigit(s[0]) then "" else [s[0]] + DigitPrefix(s[1..])
  }

  function Decimal(digits: string): (n: nat)
    requires forall c :: c in digits ==> IsDigit(c)
  {
    if digits == "" then 0
    else
      assert digits[|digits| - 1] in digits && IsDigit(digits[|digits| - 1]);
      10 * Decimal(digits[..|digits| - 1]) + (digits[|digits| - 1] as int - '0' as int)
  }

  datatype StoiResult = Value(n: int) | NoConversion | NotInRange

  function Signed(negative: bool, digits: string): StoiResult
    requires forall c :: c in digits ==> IsDigit(c)
  {
    if digits == "" then NoConversion
    else
      var m: int := Decimal(digits);
      var n := if negative then -m else m;
      if INT_MIN <= n <= INT_MAX then Value(n) else NotInRange
  }

  /** std::stoi: leading whitespace, an optional sign, as many digits as there are; what follows
      is ignored. */
  function Stoi(s: string): StoiResult {
    if s == "" then NoConversion
    else if IsSpace(s[0]) then Stoi(s[1..])
    else if s[0] == '-' then Signed(true, DigitPrefix(s[1..]))
    else if s[0] == '+' then Signed(false, DigitPrefix(s[1..]))
    else Signed(false, DigitPrefix(s))
  }

  function Print(n: nat): (s: string)
    ensures s != "" && forall c :: c in s ==> IsDigit(c)
  {
    var last := [(n % 10 + '0' as int) as char];
    if n < 10 then last else Print(n / 10) + last
  }

  lemma {:induction false} DecimalOfPrint(n: nat)
    ensures Decimal(Print(n)) == n
  {
    var last := [(n % 10 + '0' as int) as char];
    if n < 10 {
      assert Print(n)[..0] == "";
    } else {
      DecimalOfPrint(n / 10);
      assert Print(n)[..|Print(n)| - 1] == Print(n / 10);
    }
  }

  lemma {:induction false} DigitPrefixOf(digits: string, rest: string)
    requires forall c :: c in digits ==> IsDigit(c)
    requires rest == "" || !IsDigit(rest[0])
    ensures DigitPrefix(digits + rest) == digits
  {
    if digits == "" {
      assert digits + rest == rest;
    } else {
      assert digits[0] in digits && (digits + rest)[1..] == digits[1..] + rest;
      DigitPrefixOf(digits[1..], rest);
    }
  }

  lemma {:induction false} StoiSkipsGap(gap: string, tail: string)
    requires AllSpace(gap)
    ensures Stoi(gap + tail) == Stoi(tail)
  {
    if gap == "" {
      assert gap + tail == tail;
    } else {
      assert (gap + tail)[1..] == gap[1..] + tail && gap[0] in gap;
      StoiSkipsGap(gap[1..], tail);
    }
  }

  lemma StoiSigned(d: string, rest: string)
    requires d != "" && forall c :: c in d ==> IsDigit(c)
    requires rest == "" || !IsDigit(rest[0])
    ensures Stoi(d + rest) == Signed(false, d)
    ensures Stoi("+" + (d + rest)) == Signed(false, d)
    ensures Stoi("-" + (d + rest)) == Signed(true, d)
  {
    DigitPrefixOf(d, rest);
    assert d[0] in d && IsDigit(d[0]);
    hide Signed, DigitPrefix;
    assert ("+" + (d + rest))[1..] == d + rest && ("-" + (d + rest))[1..] == d + rest;
  }

  /** A number is read back after whitespace and a sign, up to the first character that is no
      digit; it is refused exactly when it does not fit an int. */
  lemma StoiReads(gap: string, sign: string, n: nat, rest: string)
    requires AllSpace(gap) && sign in {"", "+", "-"} && (rest == "" || !IsDigit(rest[0]))
    ensures var v: int := if sign == "-" then 0 - n else n;
            Stoi(gap + (sign + (Print(n) + rest))) ==
            if -2147483648 <= v <= 2147483647 then Value(v) else NotInRange
  {
    hide Stoi, Print;
    StoiSkipsGap(gap, sign + (Print(n) + rest));
    StoiSigned(Print(n), rest);
    assert "" + (Print(n) + rest) == Print(n) + rest;
    DecimalOfPrint(n);
  }

  /** Without a digit after whitespace and an optional sign there is nothing to convert, and so a
      piece that is no number, or a span without a number before its dash, is invalid. */
  lemma StoiRefuses(gap: string, sign: string, rest: string)
    requires AllSpace(gap) && sign in {"", "+", "-"} && (rest == "" || !IsDigit(rest[0]))
    requires sign == "" && rest != "" ==> !IsSpace(rest[0]) && rest[0] != '+' && rest[0] != '-'
    ensures Stoi(gap + (sign + rest)) == NoConversion
  {
    StoiSkipsGap(gap, sign + rest);
    if sign == "" { assert sign + rest == rest; } else { assert (sign + rest)[1..] == rest; }
  }

  /** Leading zeros are read too. */
  lemma {:induction false} LeadingZeros(zeros: string, digits: string)
    requires (forall c :: c in zeros ==> c == '0') && forall c :: c in digits ==> IsDigit(c)
    ensures forall c :: c in zeros + digits ==> IsDigit(c)
    ensures Decimal(zeros + digits) == Decimal(digits)
    decreases |zeros + digits|
  {
    var all := zeros + digits;
    if digits != "" {
      var init := digits[..|digits| - 1];
      assert all[..|all| - 1] == zeros + init;
      LeadingZeros(zeros, init);
    } else if zeros != "" {
      var init := zeros[..|zeros| - 1];
      assert all == zeros && all[..|all| - 1] == init + "" && all[|all| - 1] in zeros;
      assert forall c :: c in init ==> c in zeros;
      LeadingZeros(init, "");
    } else {
      assert all == "";
    }
  }

  /** A printed number has no leading zero. */
  lemma {:induction false} PrintIsShortest(n: nat)
    ensures n == 0 ==> Print(n) == "0"
    ensures n > 0 ==> Print(n)[0] != '0'
  {
    if n >= 10 { PrintIsShortest(n / 10); }
  }

  lemma StoiOfPrint(n: nat)
    requires n <= INT_MAX
    ensures Stoi(Print(n)) == Value(n)
  {
    StoiReads("", "", n, "");
    assert "" + ("" + (Print(n) + "")) == Print(n);
  }

  // ---------- Ranges ----------

  /** s, s + 1, ..., t; nothing if t < s. */
  function Range(s: int, t: int): (r: seq<int>)
    ensures |r| == (if t < s then 0 else t - s + 1) && forall k :: 0 <= k < |r| ==> r[k] == s + k
    decreases t - s
  {
    if t < s then [] else Range(s, t - 1) + [t]
  }

  /** The ids of a range, as long as the counter can pass its end. */
  function RangeItems(s: int, t: int): Items<int> {
    if s <= t && t == INT_MAX then Overflow else Items(Range(s, t))
  }

  /** The counting loop of add_item, for any two ints. */
  method PushRange(s: int, t: int) returns (r: Items<int>)
    requires t <= INT_MAX
    ensures r == RangeItems(s, t)
    ensures t < s ==> r == Items([])
    ensures s <= t < INT_MAX ==>
              r.Items? && |r.list| == t - s + 1 && forall k :: 0 <= k < |r.list| ==> r.list[k] == s + k
    ensures s <= t == INT_MAX ==> r == Overflow
  {
    var tests: seq<int> := [];
    var i := s;
    while i <= t
      invariant s <= i && (i <= t + 1 || t < s) && (t < s ==> i == s)
      invariant i <= t ==> i <= INT_MAX
      invariant s <= t && t == INT_MAX ==> i <= t
      invariant tests == Range(s, i - 1)
      decreases t - i
    {
      tests := tests + [i];
      if i == INT_MAX { return Overflow; }
      i := i + 1;
    }
    return Items(tests);
  }

  /** add_item for a test id: "n" or "a-b", cut at the first dash. */
  function TestItem(id: string): Items<int> {
    var pos := FindFrom(id, '-', 0);
    if pos == -1 then
      match Stoi(id)
      case Value(n) => Items([n])
      case NoConversion => Invalid
      case NotInRange => OutOfRange
    else
      match Stoi(id[..pos])
      case NoConversion => Invalid
      case NotInRange => OutOfRange
      case Value(s) =>
        match Stoi(id[pos + 1..])
        case NoConversion => Invalid
        case NotInRange => OutOfRange
        case Value(t) => RangeItems(s, t)
  }

  /** A piece is cut at its first dash; what stoi says of the parts, the left one first, decides. */
  lemma TestItemIs(left: string, right: string)
    requires '-' !in left
    ensures Stoi(left).NoConversion? ==> TestItem(left) == Invalid && TestItem(left + "-" + right) == Invalid
    ensures Stoi(left).NotInRange? ==> TestItem(left) == OutOfRange && TestItem(left + "-" + right) == OutOfRange
    ensures Stoi(left).Value? ==> TestItem(left) == Items([Stoi(left).n])
    ensures Stoi(left).Value? && Stoi(right).NoConversion? ==> TestItem(left + "-" + right) == Invalid
    ensures Stoi(left).Value? && Stoi(right).NotInRange? ==> TestItem(left + "-" + right) == OutOfRange
    ensures Stoi(left).Value? && Stoi(right).Value? ==>
              TestItem(left + "-" + right) == RangeItems(Stoi(left).n, Stoi(right).n)
  {
    hide Stoi, Range;
    DashIsAt(left, right);
    assert left[0..] == left;
    assert FindFrom(left, '-', 0) == -1;
    hide FindFrom;
    var id := left + "-" + right;
    assert id[..|left|] == left && id[|left| + 1..] == right;
  }

  datatype Item = One(n: nat) | Span(a: nat, b: nat)

  function Render(item: Item): string {
    match item
    case One(n) => Print(n)
    case Span(a, b) => Print(a) + "-" + Print(b)
  }

  function Expand(item: Item): seq<int> {
    match item
    case One(n) => [n]
    case Span(a, b) => Range(a, b)
  }

  function ExpandAll(items: seq<Item>): seq<int> {
    if items == [] then [] else Expand(items[0]) + ExpandAll(items[1..])
  }

  /** Numbers fit an int, and a non-empty span ends below its maximum. */
  predicate Fits(item: Item) {
    match item
    case One(n) => n <= INT_MAX
    case Span(a, b) => a <= INT_MAX && b <= INT_MAX && (a <= b ==> b < INT_MAX)
  }

  function RenderAll(items: seq<Item>): (ps: seq<string>)
    ensures |ps| == |items| && forall i :: 0 <= i < |ps| ==> ps[i] == Render(items[i])
  {
    if items == [] then [] else [Render(items[0])] + RenderAll(items[1..])
  }

  lemma ItemRoundTrip(item: Item)
    requires Fits(item)
    ensures TestItem(Render(item)) == Items(Expand(item)) && ',' !in Render(item)
  {
    match item
    case One(n) => OneRoundTrip(n);
    case Span(a, b) => SpanRoundTrip(a, b);
  }

  lemma OneRoundTrip(n: nat)
    requires Fits(One(n))
    ensures TestItem(Print(n)) == Items([n]) && ',' !in Print(n)
  {
    var id := Print(n);
    assert forall i :: 0 <= i < |id| ==> id[i] in id;
    StoiOfPrint(n);
    hide Stoi, Print;
    assert FindFrom(id, '-', 0) == -1;
  }

  lemma SpanRoundTrip(a: nat, b: nat)
    requires Fits(Span(a, b))
    ensures var id := Print(a) + "-" + Print(b);
            TestItem(id) == Items(Range(a, b)) && ',' !in id
  {
    hide Stoi, Print, FindFrom, Range;
    var left, right := Print(a), Print(b);
    var id := left + "-" + right;
    DashIsAt(left, right);
    assert id[..|left|] == left && id[|left| + 1..] == right;
    StoiOfPrint(a);
    StoiOfPrint(b);
  }

  lemma DashIsAt(left: string, right: string)
    requires '-' !in left
    ensures FindFrom(left + "-" + right, '-', 0) == |left|
  {
    var id := left + "-" + right;
    assert id[|left|] == '-';
    assert forall i :: 0 <= i < |left| ==> left[i] in left && id[i] == left[i];
  }

  lemma {:induction false} ChainedItems(items: seq<Item>)
    requires forall item :: item in items ==> Fits(item)
    ensures forall p :: p in RenderAll(items) ==> TestItem(p).Items?
    ensures Chained(RenderAll(items), TestItem) == ExpandAll(items)
  {
    if items != [] {
      assert items[0] in items && forall x :: x in items[1..] ==> x in items;
      ItemRoundTrip(items[0]);
      ChainedItems(items[1..]);
      hide TestItem, Render, Expand, Fits;
      assert RenderAll(items) == [Render(items[0])] + RenderAll(items[1..]);
      assert RenderAll(items)[1..] == RenderAll(items[1..]);
    }
  }

  lemma CollectItems(items: seq<Item>, acc: seq<int>)
    requires forall item :: item in items ==> Fits(item)
    ensures Collect(RenderAll(items), TestItem, acc) == Items(acc + ExpandAll(items))
  {
    ChainedItems(items);
    CollectIs(RenderAll(items), TestItem, acc);
    hide TestItem, RenderAll, ExpandAll, Collect, Chained;
  }

  /** Round trip: a rendered, non-empty list of items is parsed to its expansion, in order. */
  lemma ListRoundTrip(items: seq<Item>)
    requires items != [] && forall item :: item in items ==> Fits(item)
    ensures Collect(Split(Join(RenderAll(items))), TestItem, []) == Items(ExpandAll(items))
  {
    forall p | p in RenderAll(items) ensures ',' !in p {
      var i :| 0 <= i < |items| && RenderAll(items)[i] == p;
      assert items[i] in items;
      ItemRoundTrip(items[i]);
    }
    SplitJoin(RenderAll(items));
    CollectItems(items, []);
    assert [] + ExpandAll(items) == ExpandAll(items);
  }

  /** Digits are decimal, lists are cut at commas and spans at dashes, both ends belong to a span,
      and one bad piece empties the list. */
  lemma DocumentedExamples()
    ensures Collect(Split("1,4-10"), TestItem, []) == Items([1, 4, 5, 6, 7, 8, 9, 10])
    ensures Collect(Split("1,x"), TestItem, []) == Items([])
  {
    hide TestItem, Split, Range;
    ExamplePieces();
    ExampleItems();
    ExampleRange();
    CollectTwo("1", "4-10", TestItem);
    CollectTwo("1", "x", TestItem);
  }

  lemma ExampleItems()
    ensures TestItem("1") == Items([1]) && TestItem("4-10") == Items(Range(4, 10)) && TestItem("x") == Invalid
  {
    hide TestItem, Stoi, Range;
    ExampleNumbers();
    TestItemIs("1", "");
    TestItemIs("4", "10");
    TestItemIs("x", "");
    assert "4" + "-" + "10" == "4-10";
  }

  lemma ExampleRange()
    ensures [1] + Range(4, 10) == [1, 4, 5, 6, 7, 8, 9, 10]
  {}

  lemma CollectTwo<T>(p: string, q: string, add: string -> Items<T>)
    requires add(p).Items?
    ensures add(q).Items? ==> Collect([p, q], add, []) == Items(add(p).list + add(q).list)
    ensures add(q).Invalid? ==> Collect([p, q], add, []) == Items([])
  {
    assert [p, q][1..] == [q] && [q][1..] == [];
    assert [] + add(p).list == add(p).list;
    assert Collect([p, q], add, []) == Collect([q], add, add(p).list);
  }

  lemma ExampleNumbers()
    ensures Stoi("1") == Value(1) && Stoi("4") == Value(4) && Stoi("10") == Value(10) && Stoi("x") == NoConversion
  {
    assert Print(1) == "1" && Print(4) == "4" && Print(10) == "10";
    hide Stoi;
    StoiOfPrint(1);
    StoiOfPrint(4);
    StoiOfPrint(10);
    StoiRefuses("", "", "x");
    assert "" + ("" + "x") == "x";
  }

  lemma ExamplePieces()
    ensures Split("1,4-10") == ["1", "4-10"] && Split("1,x") == ["1", "x"]
  {
    hide Split;
    assert "1" + "," + "4-10" == "1,4-10" && "1" + "," + "x" == "1,x";
    SplitAtComma("1", "4-10");
    SplitAtComma("4-10", "");
    SplitAtComma("1", "x");
    SplitAtComma("x", "");
  }

  // ---------- Parsed ids as template values ----------

  lemma {:induction false} NoDashNoMinus(s: string)
    requires '-' !in s && Stoi(s).Value?
    ensures Stoi(s).n >= 0
  {
    assert s[0] in s;
    if IsSpace(s[0]) {
      assert forall c :: c in s[1..] ==> c in s;
      NoDashNoMinus(s[1..]);
    }
  }

  lemma {:induction false} RangeBounds(s: int, t: int)
    ensures forall n :: n in Range(s, t) ==> s <= n <= t
    decreases t - s
  {
    if s <= t { RangeBounds(s, t - 1); }
  }

  /** No text, however malformed, yields a negative test id. */
  lemma {:induction false} ParsedIdsAreNonNegative(ps: seq<string>, acc: seq<int>)
    requires forall n :: n in acc ==> n >= 0
    ensures var r := Collect(ps, TestItem, acc);
            r.Items? ==> forall n :: n in r.list ==> n >= 0
  {
    if ps == [] {
    } else if !TestItem(ps[0]).Items? {
      assert Collect(ps, TestItem, acc).Items? ==> Collect(ps, TestItem, acc).list == [];
    } else {
      var pos := FindFrom(ps[0], '-', 0);
      assert ps[0][0..] == ps[0];
      if pos == -1 {
        NoDashNoMinus(ps[0]);
      } else {
        assert ps[0][0..pos] == ps[0][..pos];
        NoDashNoMinus(ps[0][..pos]);
        RangeBounds(Stoi(ps[0][..pos]).n, Stoi(ps[0][pos + 1..]).n);
      }
      hide Stoi, FindFrom, Range;
      var list := TestItem(ps[0]).list;
      assert forall n :: n in list ==> n >= 0;
      ParsedIdsAreNonNegative(ps[1..], acc + list);
      assert Collect(ps, TestItem, acc) == Collect(ps[1..], TestItem, acc + list);
    }
  }

  /** So every id that is put into a path template is a clean value. */
  lemma PrintedIdsAreClean(n: nat)
    ensures Clean(Print(n))
  {
    var s := Print(n);
    assert s[0] in s && s[|s| - 1] in s;
    assert forall i :: 0 <= i < |s| ==> s[i] in s;
  }
}
