/** Suggesting a runner verb for a mistyped one (cmd/lath/main.go). */
module EditDistance {
  import opened Wrappers

  // ----- Edit scripts: the meaning of "distance" -----

  /** One column of a script that rewrites a source string into a target string. */
  datatype Edit = Keep(c: char) | Substitute(old_: char, new_: char) | Delete(c: char) | Insert(c: char)

  datatype Script = Empty | Then(front: Script, last: Edit)

  function Consumes(e: Edit): string {
    match e
    case Keep(c) => [c]
    case Substitute(a, _) => [a]
    case Delete(c) => [c]
    case Insert(_) => ""
  }

  function Produces(e: Edit): string {
    match e
    case Keep(c) => [c]
    case Substitute(_, b) => [b]
    case Delete(_) => ""
    case Insert(c) => [c]
  }

  function Source(s: Script): string {
    match s
    case Empty => ""
    case Then(front, e) => Source(front) + Consumes(e)
  }

  function Target(s: Script): string {
    match s
    case Empty => ""
    case Then(front, e) => Target(front) + Produces(e)
  }

  function Cost(s: Script): nat {
    match s
    case Empty => 0
    case Then(front, e) => Cost(front) + Price(e)
  }

  predicate Rewrites(s: Script, a: string, b: string) {
    Source(s) == a && Target(s) == b
  }

  function Price(e: Edit): nat {
    if e.Keep? then 0 else 1
  }

  // ----- The recurrence the table computes -----

  function Min(a: nat, b: nat): nat {
    if a <= b then a else b
  }

  function Init(s: string): string
    requires s != ""
  {
    s[..|s| - 1]
  }

  function Distance(a: string, b: string): nat
    decreases |a| + |b|
  {
    if a == "" then |b|
    else if b == "" then |a|
    else
      Min(Min(Distance(a, Init(b)) + 1, Distance(Init(a), b) + 1),
          Distance(Init(a), Init(b)) + if a[|a| - 1] == b[|b| - 1] then 0 else 1)
  }

  // ----- The recurrence is the least cost of any script -----

  /** No script is cheaper than the recurrence. */
  lemma {:induction false} DistanceIsLowerBound(s: Script)
    ensures Distance(Source(s), Target(s)) <= Cost(s)
  {
    match s {
      case Empty =>
      case Then(front, e) =>
        DistanceIsLowerBound(front);
        OneMore(Source(front), Target(front), e);
    }
  }

  /** One more column changes the distance by at most its own cost. */
  lemma OneMore(a: string, b: string, e: Edit)
    ensures Distance(a + Consumes(e), b + Produces(e)) <= Distance(a, b) + Price(e)
  {
    var a', b' := a + Consumes(e), b + Produces(e);
    DistanceAtMost(a', b');
    match e {
      case Keep(_) | Substitute(_, _) =>
        assert Init(a') == a && Init(b') == b;
      case Delete(_) =>
        assert Init(a') == a && b' == b;
      case Insert(_) =>
        assert Init(b') == b && a' == a;
    }
  }

  lemma DistanceAtMost(a: string, b: string)
    ensures a != "" ==> Distance(a, b) <= Distance(Init(a), b) + 1
    ensures b != "" ==> Distance(a, b) <= Distance(a, Init(b)) + 1
    ensures a != "" && b != "" ==>
              Distance(a, b) <= Distance(Init(a), Init(b)) + if a[|a| - 1] == b[|b| - 1] then 0 else 1
  {
  }

  /** Some script reaches the recurrence. */
  lemma {:induction false} DistanceIsReached(a: string, b: string) returns (s: Script)
    ensures Rewrites(s, a, b) && Cost(s) == Distance(a, b)
    decreases |a| + |b|
  {
    if a == "" && b == "" {
      s := Empty;
    } else {
      var e := LastEdit(a, b);
      var front := DistanceIsReached(Without(a, Consumes(e)), Without(b, Produces(e)));
      s := Then(front, e);
    }
  }

  function Without(s: string, tail: string): string
    requires |tail| <= |s|
  {
    s[..|s| - |tail|]
  }

  lemma LastOff(s: string)
    requires s != ""
    ensures Without(s, [s[|s| - 1]]) == Init(s) && s == Init(s) + [s[|s| - 1]]
  {
  }

  /** A cheapest script ends with this column. */
  lemma {:induction false} LastEdit(a: string, b: string) returns (e: Edit)
    requires a != "" || b != ""
    ensures |Consumes(e)| <= |a| && |Produces(e)| <= |b| && |Consumes(e)| + |Produces(e)| > 0
    ensures a == Without(a, Consumes(e)) + Consumes(e) && b == Without(b, Produces(e)) + Produces(e)
    ensures Distance(a, b) == Distance(Without(a, Consumes(e)), Without(b, Produces(e))) + Price(e)
  {
    assert Without(b, "") == b && Without(a, "") == a;
    if a != "" {
      LastOff(a);
    }
    if b != "" {
      LastOff(b);
    }
    if b == "" || (a != "" && Distance(a, b) == Distance(Init(a), b) + 1) {
      e := Delete(a[|a| - 1]);
      assert b == "" ==> Distance(Init(a), b) == |a| - 1;
    } else if a == "" || Distance(a, b) == Distance(a, Init(b)) + 1 {
      e := Insert(b[|b| - 1]);
    } else if a[|a| - 1] == b[|b| - 1] {
      e := Keep(a[|a| - 1]);
    } else {
      e := Substitute(a[|a| - 1], b[|b| - 1]);
    }
  }

  /** `d` is the least number of insertions, deletions and substitutions turning `a` into `b`. */
  ghost predicate LeastCost(a: string, b: string, d: nat) {
    && (exists s :: Rewrites(s, a, b) && Cost(s) == d)
    && (forall s :: Rewrites(s, a, b) ==> d <= Cost(s))
  }

  /** The unit of the measure: one character changed, dropped or added. */
  lemma UnitCosts(x: char, y: char)
    ensures Distance([x], [y]) == if x == y then 0 else 1
    ensures Distance([x], "") == 1 && Distance("", [x]) == 1
    ensures Cost(Then(Empty, Substitute(x, y))) == 1 && Cost(Then(Empty, Keep(x))) == 0
    ensures Cost(Then(Empty, Delete(x))) == 1 && Cost(Then(Empty, Insert(x))) == 1
  {
    assert Init([x]) == "" && Init([y]) == "";
  }

  lemma DistanceIsLeastCost(a: string, b: string)
    ensures LeastCost(a, b, Distance(a, b))
  {
    var best := DistanceIsReached(a, b);
    forall s | Rewrites(s, a, b) ensures Distance(a, b) <= Cost(s) {
      DistanceIsLowerBound(s);
    }
  }

  // ----- It is a metric -----

  function Flip(e: Edit): Edit {
    match e
    case Keep(c) => Keep(c)
    case Substitute(a, b) => Substitute(b, a)
    case Delete(c) => Insert(c)
    case Insert(c) => Delete(c)
  }

  /** The script that undoes `s`. */
  function Inverse(s: Script): Script {
    match s
    case Empty => Empty
    case Then(front, e) => Then(Inverse(front), Flip(e))
  }

  lemma {:induction false} InverseUndoes(s: Script)
    ensures Rewrites(Inverse(s), Target(s), Source(s)) && Cost(Inverse(s)) == Cost(s)
  {
    if s.Then? {
      InverseUndoes(s.front);
    }
  }

  lemma {:induction false} DistanceSymmetric(a: string, b: string)
    ensures Distance(a, b) == Distance(b, a)
  {
    var s := DistanceIsReached(a, b);
    InverseUndoes(s);
    DistanceIsLowerBound(Inverse(s));
    var t := DistanceIsReached(b, a);
    InverseUndoes(t);
    DistanceIsLowerBound(Inverse(t));
  }

  /** The single column that does `e` and then `f`, when `f` consumes what `e` produces. */
  function Merge(e: Edit, f: Edit): (r: Option<Edit>)
    requires |Produces(e)| == 1 && Produces(e) == Consumes(f)
    ensures (if r.None? then "" else Consumes(r.value)) == Consumes(e)
    ensures (if r.None? then "" else Produces(r.value)) == Produces(f)
    ensures (if r.None? then 0 else Price(r.value)) <= Price(e) + Price(f)
  {
    if e.Insert? then if f.Delete? then None else Some(Insert(Produces(f)[0]))
    else if f.Delete? then Some(Delete(Consumes(e)[0]))
    else if e.Keep? && f.Keep? then Some(e)
    else Some(Substitute(Consumes(e)[0], Produces(f)[0]))
  }

  /** Two scripts in a row, as one script that costs no more than both. */
  lemma {:induction false} Compose(s: Script, t: Script) returns (r: Script)
    requires Target(s) == Source(t)
    ensures Rewrites(r, Source(s), Target(t)) && Cost(r) <= Cost(s) + Cost(t)
    decreases s, t
  {
    if s.Then? && s.last.Delete? {
      var r' := Compose(s.front, t);
      r := Then(r', s.last);
    } else if t.Then? && t.last.Insert? {
      var r' := Compose(s, t.front);
      r := Then(r', t.last);
    } else if s.Empty? {
      r := t;
    } else {
      if t.Empty? {
        assert false;
      }
      SameTail(Target(s.front), Produces(s.last), Source(t.front), Consumes(t.last));
      r := Compose(s.front, t.front);
      var m := Merge(s.last, t.last);
      if m.Some? {
        r := Then(r, m.value);
      }
    }
  }

  lemma SameTail(a: string, x: string, b: string, y: string)
    requires a + x == b + y && |x| == |y| == 1
    ensures a == b && x == y
  {
    assert (a + x)[..|a|] == a && (b + y)[..|b|] == b;
    assert (a + x)[|a|] == x[0] && (b + y)[|b|] == y[0];
  }

  lemma {:induction false} DistanceTriangle(a: string, b: string, c: string)
    ensures Distance(a, c) <= Distance(a, b) + Distance(b, c)
  {
    var s := DistanceIsReached(a, b);
    var t := DistanceIsReached(b, c);
    var r := Compose(s, t);
    DistanceIsLowerBound(r);
  }

  lemma {:induction false} DistanceZero(a: string, b: string)
    ensures Distance(a, b) == 0 <==> a == b
  {
    var s := DistanceIsReached(a, b);
    if Cost(s) == 0 {
      FreeScriptKeeps(s);
    }
    if a == b {
      KeepAll(a);
    }
  }

  lemma {:induction false} FreeScriptKeeps(s: Script)
    requires Cost(s) == 0
    ensures Source(s) == Target(s)
  {
    if s.Then? {
      FreeScriptKeeps(s.front);
    }
  }

  lemma {:induction false} KeepAll(a: string)
    ensures Distance(a, a) == 0
  {
    if a != "" {
      KeepAll(Init(a));
    }
  }

  // ----- The two rolling rows -----

  /** The distances of `a` to every prefix of `b`. */
  ghost function Row(a: string, b: string): (row: seq<nat>)
    ensures |row| == |b| + 1
  {
    seq(|b| + 1, k requires 0 <= k <= |b| => Distance(a, b[..k]))
  }

  /** `row` is the row under `above` in the table for `x`, the character above it, and `b`. */
  ghost predicate Below(x: char, i: nat, b: string, above: seq<nat>, row: seq<nat>)
    requires |above| == |row| == |b| + 1
  {
    && row[0] == i
    && forall j :: 0 < j <= |b| ==>
         row[j] == Min(Min(row[j - 1] + 1, above[j] + 1), above[j - 1] + if x == b[j - 1] then 0 else 1)
  }

  lemma Cell(a: string, b: string, i: nat, j: nat)
    requires 0 < i <= |a| && 0 < j <= |b|
    ensures Row(a[..i], b)[j] ==
            Min(Min(Row(a[..i], b)[j - 1] + 1, Row(a[..i - 1], b)[j] + 1),
                Row(a[..i - 1], b)[j - 1] + if a[i - 1] == b[j - 1] then 0 else 1)
  {
    assert Init(a[..i]) == a[..i - 1] && Init(b[..j]) == b[..j - 1];
  }

  lemma RowBelow(a: string, b: string, i: nat)
    requires 0 < i <= |a|
    ensures Below(a[i - 1], i, b, Row(a[..i - 1], b), Row(a[..i], b))
  {
    var above, row := Row(a[..i - 1], b), Row(a[..i], b);
    forall j | 0 < j <= |b|
      ensures row[j] == Min(Min(row[j - 1] + 1, above[j] + 1),
                            above[j - 1] + if a[i - 1] == b[j - 1] then 0 else 1)
    {
      Cell(a, b, i, j);
    }
    assert Distance(a[..i], b[..0]) == i;
  }

  /** The inner loop: one row of the table from the row above it. */
  method NextRow(x: char, i: nat, b: string, prev: array<nat>, cur: array<nat>, ghost row: seq<nat>)
    requires prev != cur && prev.Length == cur.Length == |row| == |b| + 1
    requires Below(x, i, b, prev[..], row)
    modifies cur
    ensures cur[..] == row
  {
    cur[0] := i;
    for j := 1 to |b| + 1
      invariant forall k :: 0 <= k < j ==> cur[k] == row[k]
    {
      var cost := 1;
      if x == b[j - 1] {
        cost := 0;
      }
      cur[j] := Min(Min(cur[j - 1] + 1, prev[j] + 1), prev[j - 1] + cost);
    }
  }

  method EditDistance(a: string, b: string) returns (d: nat)
    ensures d == Distance(a, b)
  {
    var prev := new nat[|b| + 1];
    var cur := new nat[|b| + 1];
    for j := 0 to prev.Length
      invariant forall k :: 0 <= k < j ==> prev[k] == k
    {
      prev[j] := j;
    }
    for i := 1 to |a| + 1
      invariant prev != cur && prev.Length == cur.Length == |b| + 1
      invariant fresh(prev) && fresh(cur)
      invariant prev[..] == Row(a[..i - 1], b)
    {
      RowBelow(a, b, i);
      NextRow(a[i - 1], i, b, prev, cur, Row(a[..i], b));
      prev, cur := cur, prev;
    }
    assert a[..|a|] == a && b[..|b|] == b;
    d := prev[|b|];
  }

  // ----- Suggestions -----

  const VERBS: seq<string> := ["run", "plan", "dry-run", "list", "tui", "init", "cache", "version", "help"]

  const MAX_SUGGESTION_ERROR_RATIO := 3

  function Limit(length: nat): nat {
    if length / MAX_SUGGESTION_ERROR_RATIO < 1 then 1 else length / MAX_SUGGESTION_ERROR_RATIO
  }

  ghost function Distances(input: string, words: seq<string>): seq<nat> {
    seq(|words|, i requires 0 <= i < |words| => Distance(input, words[i]))
  }

  /** `ds[k]` is the first of the smallest entries, and is within the limit. */
  ghost predicate Nearest(ds: seq<nat>, limit: nat, k: nat) {
    && k < |ds| && ds[k] <= limit
    && (forall j :: 0 <= j < |ds| ==> ds[k] <= ds[j])
    && (forall j :: 0 <= j < k ==> ds[k] < ds[j])
  }

  /** What `closestVerb` owes its caller: the first nearest word, or none when all are too far. */
  ghost predicate Suggestion(words: seq<string>, input: string, limit: nat, best: string) {
    var ds := Distances(input, words);
    if best == "" then forall i :: 0 <= i < |ds| ==> ds[i] > limit
    else exists k: nat :: Nearest(ds, limit, k) && best == words[k]
  }

  method ClosestWord(words: seq<string>, length: nat, lowered: string) returns (best: string)
    requires "" !in words
    ensures Suggestion(words, lowered, Limit(length), best)
  {
    best := "";
    var bestDist := -1;
    var limit := length / MAX_SUGGESTION_ERROR_RATIO;
    if limit < 1 {
      limit := 1;
    }
    ghost var ds := Distances(lowered, words);
    ghost var at := 0;
    for i := 0 to |words|
      invariant bestDist < 0 ==> best == "" && forall j :: 0 <= j < i ==> ds[j] > limit
      invariant bestDist >= 0 ==> Nearest(ds[..i], limit, at) && best == words[at] && bestDist == ds[at]
    {
      var d := Measure(lowered, words, i);
      NearestSoFar(ds, limit, i, bestDist, at);
      if d <= limit && (bestDist < 0 || d < bestDist) {
        best, bestDist := words[i], d;
        at := i;
      }
    }
    assert ds[..|words|] == ds;
  }

  method Measure(input: string, words: seq<string>, i: nat) returns (d: nat)
    requires i < |words|
    ensures d == Distances(input, words)[i]
  {
    d := EditDistance(input, words[i]);
  }

  /** One more word: it is the nearest so far, or what was nearest still is. */
  lemma NearestSoFar(ds: seq<nat>, limit: nat, i: nat, bestDist: int, at: nat)
    requires i < |ds|
    requires bestDist < 0 ==> forall j :: 0 <= j < i ==> ds[j] > limit
    requires bestDist >= 0 ==> Nearest(ds[..i], limit, at) && bestDist == ds[at]
    ensures if ds[i] <= limit && (bestDist < 0 || ds[i] < bestDist) then Nearest(ds[..i + 1], limit, i)
            else bestDist >= 0 ==> Nearest(ds[..i + 1], limit, at)
  {
  }

  /** A suggestion, word by word. */
  lemma SuggestionSpelled(words: seq<string>, input: string, limit: nat, best: string)
    requires "" !in words && Suggestion(words, input, limit, best)
    ensures best == "" <==> forall v <- words :: Distance(input, v) > limit
    ensures best != "" ==> && best in words && Distance(input, best) <= limit
                           && forall v <- words :: Distance(input, best) <= Distance(input, v)
  {
    var ds := Distances(input, words);
    assert forall i :: 0 <= i < |words| ==> ds[i] == Distance(input, words[i]);
    if best != "" {
      var k: nat :| Nearest(ds, limit, k) && best == words[k];
      assert words[k] in words && Distance(input, words[k]) == ds[k];
      forall v | v in words
        ensures Distance(input, best) <= Distance(input, v)
      {
        var i :| 0 <= i < |words| && words[i] == v;
        assert ds[i] == Distance(input, v);
      }
    } else {
      forall v | v in words
        ensures Distance(input, v) > limit
      {
        var i :| 0 <= i < |words| && words[i] == v;
        assert ds[i] == Distance(input, v);
      }
    }
  }

  /** `length` is the byte length of what was typed, `lowered` that text in lower case. */
  method ClosestVerb(length: nat, lowered: string) returns (best: string)
    ensures Suggestion(VERBS, lowered, Limit(length), best)
    ensures var limit := if length < 6 then 1 else length / 3;
            && (best == "" <==> forall v <- VERBS :: Distance(lowered, v) > limit)
            && (best != "" ==> && best in VERBS && Distance(lowered, best) <= limit
                               && forall v <- VERBS :: Distance(lowered, best) <= Distance(lowered, v))
  {
    best := ClosestWord(VERBS, length, lowered);
    SuggestionSpelled(VERBS, lowered, Limit(length), best);
    assert Limit(length) == if length < 6 then 1 else length / 3;
  }
}
