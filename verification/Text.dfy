/** Decimal numerals, as `%d`, `strconv.Itoa` and the repository's own `itoa` print them. */
module Decimal {
  const DIGITS: string := "0123456789"

  predicate IsDigit(c: char) {
    '0' <= c <= '9'
  }

  function Digit(d: nat): (c: char)
    requires d < 10
    ensures IsDigit(c) && Value(c) == d
  {
    DIGITS[d]
  }

  function Value(c: char): nat
    requires IsDigit(c)
  {
    c as int - '0' as int
  }

  function Dec(n: nat): (s: string)
    ensures s != "" && forall c <- s :: IsDigit(c)
    ensures s[0] == '0' ==> n == 0 && s == "0"
  {
    if n < 10 then [Digit(n)] else Dec(n / 10) + [Digit(n % 10)]
  }

  /** The number a string of digits denotes. */
  function Number(s: string): nat
    requires forall c <- s :: IsDigit(c)
  {
    if s == "" then 0 else 10 * Number(s[..|s| - 1]) + Value(s[|s| - 1])
  }

  lemma {:induction false} NumberOfDec(n: nat)
    ensures Number(Dec(n)) == n
  {
    if n >= 10 {
      NumberOfDec(n / 10);
      assert Dec(n)[..|Dec(n)| - 1] == Dec(n / 10);
    }
  }

  lemma DecInjective(m: nat, n: nat)
    requires Dec(m) == Dec(n)
    ensures m == n
  {
    NumberOfDec(m);
    NumberOfDec(n);
  }

  function DecInt(n: int): string {
    if n < 0 then "-" + Dec(-n) else Dec(n)
  }

  lemma DecIntSpelled(n: int)
    ensures n >= 0 ==> DecInt(n) == Dec(n)
    ensures n < 0 ==> DecInt(n)[0] == '-' && DecInt(n)[1..] == Dec(-n)
  {
  }

  lemma DecIntInjective(m: int, n: int)
    requires DecInt(m) == DecInt(n)
    ensures m == n
  {
    SignShows(m);
    SignShows(n);
    if m < 0 {
      SignedInjective(-m, -n);
    } else {
      DecInjective(m, n);
    }
  }

  lemma SignedInjective(m: nat, n: nat)
    requires "-" + Dec(m) == "-" + Dec(n)
    ensures m == n
  {
    var a, b := Dec(m), Dec(n);
    assert ("-" + a)[1..] == a && ("-" + b)[1..] == b;
    DecInjective(m, n);
  }

  lemma SignShows(n: int)
    ensures n < 0 <==> DecInt(n)[0] == '-'
  {
    if n >= 0 {
      assert Dec(n)[0] in Dec(n);
    }
  }
}

/** Byte-wise lexicographic order and `sort.Strings`. */
module Sorting {
  predicate AtMost(a: string, b: string) {
    a == "" || (b != "" && (a[0] < b[0] || (a[0] == b[0] && AtMost(a[1..], b[1..]))))
  }

  lemma {:induction false} AtMostTotal(a: string, b: string)
    ensures AtMost(a, b) || AtMost(b, a)
    ensures AtMost(a, b) && AtMost(b, a) ==> a == b
  {
    if a != "" && b != "" && a[0] == b[0] {
      AtMostTotal(a[1..], b[1..]);
      assert a == [a[0]] + a[1..] && b == [b[0]] + b[1..];
    }
  }

  lemma {:induction false} AtMostTransitive(a: string, b: string, c: string)
    requires AtMost(a, b) && AtMost(b, c)
    ensures AtMost(a, c)
  {
    if a != "" && a[0] == b[0] == c[0] {
      AtMostTransitive(a[1..], b[1..], c[1..]);
    }
  }

  /** The order is that of the first byte that differs; a beginning comes before the whole. */
  lemma {:induction false} AtMostSpelled(a: string, b: string)
    ensures AtMost(a, b) <==> a <= b || exists i :: 0 <= i < |a| && i < |b| && a[..i] == b[..i] && a[i] < b[i]
  {
    if a != "" && b != "" && a[0] == b[0] {
      AtMostSpelled(a[1..], b[1..]);
      if i :| 0 <= i < |a| && i < |b| && a[..i] == b[..i] && a[i] < b[i] {
        assert a[1..][..i - 1] == a[..i][1..] && b[1..][..i - 1] == b[..i][1..];
        assert a[1..][i - 1] < b[1..][i - 1];
      }
      if i :| 0 <= i < |a[1..]| && i < |b[1..]| && a[1..][..i] == b[1..][..i] && a[1..][i] < b[1..][i] {
        assert a[..i + 1] == [a[0]] + a[1..][..i] && b[..i + 1] == [b[0]] + b[1..][..i];
        assert a[i + 1] < b[i + 1];
      }
    } else if a != "" && b != "" {
      assert a[..0] == b[..0];
    }
  }

  // ----- Sorting by a key -----

  ghost predicate SortedBy<T>(key: T -> string, s: seq<T>) {
    forall i, j :: 0 <= i < j < |s| ==> AtMost(key(s[i]), key(s[j]))
  }

  function Insert<T>(key: T -> string, x: T, s: seq<T>): seq<T> {
    if s == [] || AtMost(key(x), key(s[0])) then [x] + s else [s[0]] + Insert(key, x, s[1..])
  }

  function SortBy<T>(key: T -> string, s: seq<T>): seq<T> {
    if s == [] then [] else Insert(key, s[0], SortBy(key, s[1..]))
  }

  lemma HeadAndTail<T>(s: seq<T>)
    requires s != []
    ensures s == [s[0]] + s[1..] && multiset(s) == multiset{s[0]} + multiset(s[1..])
  {
    assert s == [s[0]] + s[1..];
  }

  /** Something no greater than the first is no greater than any. */
  lemma SortedFront<T>(key: T -> string, x: T, s: seq<T>)
    requires SortedBy(key, s) && (s != [] ==> AtMost(key(x), key(s[0])))
    ensures SortedBy(key, [x] + s)
  {
    forall j | 0 <= j < |s| ensures AtMost(key(x), key(s[j])) {
      if j > 0 {
        AtMostTransitive(key(x), key(s[0]), key(s[j]));
      }
    }
  }

  lemma {:induction false} InsertKeeps<T>(key: T -> string, x: T, s: seq<T>)
    requires SortedBy(key, s)
    ensures multiset(Insert(key, x, s)) == multiset{x} + multiset(s) && SortedBy(key, Insert(key, x, s))
  {
    if s == [] || AtMost(key(x), key(s[0])) {
      SortedFront(key, x, s);
    } else {
      HeadAndTail(s);
      AtMostTotal(key(x), key(s[0]));
      InsertKeeps(key, x, s[1..]);
      var rest := Insert(key, x, s[1..]);
      assert rest[0] in multiset(rest);
      assert rest[0] == x || rest[0] in s[1..];
      SortedFront(key, s[0], rest);
    }
  }

  lemma {:induction false} SortBySorts<T>(key: T -> string, s: seq<T>)
    ensures SortedBy(key, SortBy(key, s)) && multiset(SortBy(key, s)) == multiset(s)
  {
    if s != [] {
      SortBySorts(key, s[1..]);
      InsertKeeps(key, s[0], SortBy(key, s[1..]));
      HeadAndTail(s);
    }
  }

  /** Different members have different keys. */
  ghost predicate KeyTells<T(!new)>(key: T -> string, s: seq<T>) {
    forall x, y :: x in s && y in s && key(x) == key(y) ==> x == y
  }

  lemma SmallestFirst<T>(key: T -> string, a: seq<T>, b: seq<T>)
    requires a != [] && b != [] && SortedBy(key, a) && SortedBy(key, b) && multiset(a) == multiset(b)
    ensures key(a[0]) == key(b[0]) && b[0] in a
  {
    assert a[0] in multiset(b) && b[0] in multiset(a);
    var i :| 0 <= i < |a| && a[i] == b[0];
    var j :| 0 <= j < |b| && b[j] == a[0];
    AtMostTotal(key(a[0]), key(b[0]));
    assert i == 0 || AtMost(key(a[0]), key(a[i]));
    assert j == 0 || AtMost(key(b[0]), key(b[j]));
  }

  lemma TailSorted<T(!new)>(key: T -> string, s: seq<T>)
    requires s != [] && SortedBy(key, s)
    ensures SortedBy(key, s[1..]) && (KeyTells(key, s) ==> KeyTells(key, s[1..]))
    ensures multiset(s[1..]) == multiset(s) - multiset{s[0]}
  {
    HeadAndTail(s);
    assert forall x <- s[1..] :: x in s;
  }

  /** A bag whose keys tell its members apart has one sorted arrangement. */
  lemma {:induction false} SortedUnique<T(!new)>(key: T -> string, a: seq<T>, b: seq<T>)
    requires SortedBy(key, a) && SortedBy(key, b) && KeyTells(key, a) && multiset(a) == multiset(b)
    ensures a == b
  {
    assert |a| == |multiset(a)| == |multiset(b)| == |b|;
    if a != [] {
      SmallestFirst(key, a, b);
      assert a[0] == b[0];
      TailSorted(key, a);
      TailSorted(key, b);
      SortedUnique(key, a[1..], b[1..]);
      HeadAndTail(a);
      HeadAndTail(b);
    }
  }

  // ----- Strings -----

  function Self(s: string): string {
    s
  }

  ghost predicate Sorted(s: seq<string>) {
    forall i, j :: 0 <= i < j < |s| ==> AtMost(s[i], s[j])
  }

  function Sort(s: seq<string>): seq<string> {
    SortBy(Self, s)
  }

  lemma SortSorts(s: seq<string>)
    ensures Sorted(Sort(s)) && multiset(Sort(s)) == multiset(s)
  {
    SortBySorts(Self, s);
    var t := Sort(s);
    forall i, j | 0 <= i < j < |t| ensures AtMost(t[i], t[j]) {
      assert AtMost(Self(t[i]), Self(t[j]));
    }
  }

  /** Sorting forgets the order its input came in. */
  lemma SortForgetsOrder(a: seq<string>, b: seq<string>)
    requires multiset(a) == multiset(b)
    ensures Sort(a) == Sort(b)
  {
    SortBySorts(Self, a);
    SortBySorts(Self, b);
    SortedUnique(Self, Sort(a), Sort(b));
  }

  // ----- Listing a set -----

  /** The keys of a Go map, in whatever order ranging over it gives. */
  method Elements(s: set<string>) returns (out: seq<string>)
    ensures multiset(out) == multiset(s)
  {
    out := [];
    var left := s;
    while left != {}
      invariant left <= s && multiset(out) == multiset(s - left)
      decreases |left|
    {
      var x :| x in left;
      assert s - (left - {x}) == (s - left) + {x};
      out := out + [x];
      left := left - {x};
    }
    assert s - {} == s;
  }

  ghost predicate NoRepeats(s: seq<string>) {
    forall i, j :: 0 <= i < j < |s| ==> s[i] != s[j]
  }

  lemma TwiceCounted(out: seq<string>, i: nat, j: nat)
    requires i < j < |out| && out[i] == out[j]
    ensures multiset(out)[out[i]] >= 2
  {
    assert out == out[..i] + [out[i]] + out[i + 1..j] + [out[j]] + out[j + 1..];
  }

  lemma ListsSet(out: seq<string>, s: set<string>)
    requires multiset(out) == multiset(s)
    ensures (forall x :: x in out <==> x in s) && NoRepeats(out)
  {
    forall x ensures x in out <==> x in s {
      assert x in out <==> x in multiset(out);
    }
    forall i, j | 0 <= i < j < |out| ensures out[i] != out[j] {
      if out[i] == out[j] {
        TwiceCounted(out, i, j);
      }
    }
  }
}
