/** What the string encoding is built from: splitting and joining at a separator, decimal numbers and the order of
    strings, as Go's strings, strconv and sort packages have them. */
module Texts {
  // ---- split and join

  function Split(s: string, sep: char): (parts: seq<string>)
    ensures |parts| > 0
  {
    if s == "" then [""]
    else
      var rest := Split(s[1..], sep);
      if s[0] == sep then [""] + rest else [[s[0]] + rest[0]] + rest[1..]
  }

  function Join(parts: seq<string>, sep: char): string {
    if parts == [] then ""
    else if |parts| == 1 then parts[0]
    else parts[0] + [sep] + Join(parts[1..], sep)
  }

  /** No part of a split holds the separator. */
  lemma {:induction false} SplitParts(s: string, sep: char)
    ensures forall i :: 0 <= i < |Split(s, sep)| ==> sep !in Split(s, sep)[i]
  {
    if s != "" {
      SplitParts(s[1..], sep);
    }
  }

  lemma {:induction false} SplitAtSeparator(head: string, sep: char, rest: string)
    requires sep !in head
    ensures Split(head + [sep] + rest, sep) == [head] + Split(rest, sep)
  {
    var s := head + [sep] + rest;
    if head == "" {
      assert s[1..] == rest;
    } else {
      SplitAtSeparator(head[1..], sep, rest);
      assert s[1..] == head[1..] + [sep] + rest;
      assert [s[0]] + head[1..] == head;
    }
  }

  lemma {:induction false} SplitWhole(s: string, sep: char)
    requires sep !in s
    ensures Split(s, sep) == [s]
  {
    if s != "" {
      SplitWhole(s[1..], sep);
      assert [s[0]] + s[1..] == s;
    }
  }

  /** Splitting undoes joining when no part holds the separator. */
  lemma {:induction false} SplitJoin(parts: seq<string>, sep: char)
    requires parts != [] && forall i :: 0 <= i < |parts| ==> sep !in parts[i]
    ensures Split(Join(parts, sep), sep) == parts
  {
    if |parts| == 1 {
      SplitWhole(parts[0], sep);
    } else {
      SplitAtSeparator(parts[0], sep, Join(parts[1..], sep));
      SplitJoin(parts[1..], sep);
    }
  }

  // ---- decimal numbers

  function Digit(d: nat): (c: char)
    requires d < 10
    ensures '0' <= c <= '9' && c as int - '0' as int == d
  {
    '0' + d as char
  }

  function Decimal(n: nat): (s: string)
    ensures s != "" && forall i :: 0 <= i < |s| ==> '0' <= s[i] <= '9'
  {
    if n < 10 then [Digit(n)] else Decimal(n / 10) + [Digit(n % 10)]
  }

  datatype Parse = Number(n: nat) | SyntaxError | RangeError

  /** strconv.ParseUint in base 10: stops at the first character that is no digit or takes the number past `max`. */
  function ParseUint(s: string, max: nat): Parse {
    if s == "" then SyntaxError else ParseDigits(s, max)
  }

  function ParseDigits(s: string, max: nat): (p: Parse)
    ensures p.Number? ==> p.n <= max
  {
    if s == "" then Number(0)
    else
      match ParseDigits(s[..|s| - 1], max)
      case Number(n) =>
        var c := s[|s| - 1];
        if !('0' <= c <= '9') then SyntaxError
        else
          var next := n * 10 + (c as int - '0' as int);
          if next > max then RangeError else Number(next)
      case error => error
  }

  /** A printed number parses back, unless it is over the limit. */
  lemma {:induction false} ParseDecimal(n: nat, max: nat)
    requires n <= max
    ensures ParseUint(Decimal(n), max) == Number(n)
  {
    var s := Decimal(n);
    if n < 10 {
      assert s[..0] == "";
      assert ParseDigits(s[..0], max) == Number(0);
    } else {
      ParseDecimal(n / 10, max);
      assert s[..|s| - 1] == Decimal(n / 10);
    }
  }

  // ---- order

  predicate Less(a: string, b: string) {
    b != "" && (a == "" || a[0] < b[0] || (a[0] == b[0] && Less(a[1..], b[1..])))
  }

  lemma {:induction false} LessTransitive(a: string, b: string, c: string)
    requires Less(a, b) && Less(b, c)
    ensures Less(a, c)
  {
    if a != "" && a[0] == b[0] && b[0] == c[0] {
      LessTransitive(a[1..], b[1..], c[1..]);
    }
  }

  lemma {:induction false} LessIrreflexive(a: string)
    ensures !Less(a, a)
  {
    if a != "" {
      LessIrreflexive(a[1..]);
    }
  }

  lemma {:induction false} LessTotal(a: string, b: string)
    ensures a == b || Less(a, b) || Less(b, a)
  {
    if a != "" && b != "" && a[0] == b[0] {
      LessTotal(a[1..], b[1..]);
      assert a == [a[0]] + a[1..] && b == [b[0]] + b[1..];
    }
  }

  ghost predicate Increasing(items: seq<string>) {
    forall i, j :: 0 <= i < j < |items| ==> Less(items[i], items[j])
  }

  function Elements(items: seq<string>): set<string> {
    set s | s in items
  }

  /** A set of strings has one increasing arrangement. */
  lemma {:induction false} OneArrangement(a: seq<string>, b: seq<string>)
    requires Increasing(a) && Increasing(b) && Elements(a) == Elements(b)
    ensures a == b
  {
    HasElement(a);
    HasElement(b);
    if a != [] {
      assert a[0] in Elements(b);
      FirstIsLeast(a);
      FirstIsLeast(b);
      assert b[0] in Elements(a);
      SameFirst(a, b);
      RestElements(a);
      RestElements(b);
      OneArrangement(a[1..], b[1..]);
      assert a == [a[0]] + a[1..] && b == [b[0]] + b[1..];
    }
  }

  lemma HasElement(a: seq<string>)
    ensures a == [] <==> Elements(a) == {}
  {
    if a != [] {
      assert a[0] in Elements(a);
    }
  }

  lemma FirstIsLeast(a: seq<string>)
    requires Increasing(a) && a != []
    ensures forall s :: s in Elements(a) ==> s == a[0] || Less(a[0], s)
  {}

  lemma SameFirst(a: seq<string>, b: seq<string>)
    requires a != [] && b != []
    requires a[0] == b[0] || (Less(a[0], b[0]) && Less(b[0], a[0]))
    ensures a[0] == b[0]
  {
    if a[0] != b[0] {
      LessTransitive(a[0], b[0], a[0]);
      LessIrreflexive(a[0]);
    }
  }

  lemma RestElements(a: seq<string>)
    requires Increasing(a) && a != []
    ensures Elements(a[1..]) == Elements(a) - {a[0]}
  {
    LessIrreflexive(a[0]);
    assert a == [a[0]] + a[1..];
  }

  /** sort.Strings on items that differ from each other, by insertion. */
  method SortStrings(items: seq<string>) returns (sorted: seq<string>)
    requires forall i, j :: 0 <= i < j < |items| ==> items[i] != items[j]
    ensures Increasing(sorted) && Elements(sorted) == Elements(items)
  {
    sorted := [];
    var k := 0;
    while k < |items|
      invariant 0 <= k <= |items| && Increasing(sorted) && Elements(sorted) == Elements(items[..k])
    {
      assert items[..k + 1] == items[..k] + [items[k]];
      assert items[k] !in Elements(items[..k]);
      sorted := InsertString(sorted, items[k]);
      k := k + 1;
    }
    assert items[..k] == items;
  }

  method InsertString(sorted: seq<string>, item: string) returns (r: seq<string>)
    requires Increasing(sorted) && item !in Elements(sorted)
    ensures Increasing(r) && Elements(r) == Elements(sorted) + {item}
  {
    var i := |sorted|;
    while i > 0 && Less(item, sorted[i - 1])
      invariant 0 <= i <= |sorted|
      invariant forall j :: i <= j < |sorted| ==> Less(item, sorted[j])
    {
      i := i - 1;
    }
    forall j | 0 <= j < i
      ensures Less(sorted[j], item)
    {
      assert sorted[i - 1] in Elements(sorted);
      LessTotal(item, sorted[i - 1]);
      if j < i - 1 {
        LessTransitive(sorted[j], sorted[i - 1], item);
      }
    }
    r := sorted[..i] + [item] + sorted[i..];
    InsertedElements(sorted, item, i);
  }

  lemma InsertedElements(sorted: seq<string>, item: string, i: nat)
    requires i <= |sorted|
    ensures Elements(sorted[..i] + [item] + sorted[i..]) == Elements(sorted) + {item}
  {
    assert sorted == sorted[..i] + sorted[i..];
  }
}
