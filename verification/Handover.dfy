/**
 * Replacing a release (steps/docker/container.go): start the new containers, wait until they work,
 * then retire the old ones; the step loop decides whether each of these gets its turn.
 */
module Handover {
  import opened Wrappers
  import opened Decimal
  import opened Bag
  import Wiring
  import opened Debugging
  import opened Engine
  import opened RunLaws
  import opened Sorting

  const KEY_IMAGE: Key := "image"
  const KEY_COMMIT: Key := "commit"
  const KEY_CONTAINERS: Key := "containers"
  const KEY_ROUTED: Key := "routed"

  // ----- Container names -----

  function Pow10(k: nat): nat {
    if k == 0 then 1 else 10 * Pow10(k - 1)
  }

  lemma TwentyDigits()
    ensures Pow10(20) == 100_000_000_000_000_000_000
  {
    assert Pow10(4) == 10_000;
    assert Pow10(8) == 100_000_000;
    assert Pow10(12) == 1_000_000_000_000;
    assert Pow10(16) == 10_000_000_000_000_000;
  }

  /** The numeral so far: empty until there is something to print. */
  function Digits(m: nat): string {
    if m == 0 then "" else Dec(m)
  }

  lemma FewerDigits(m: nat, k: nat)
    requires 0 < m < Pow10(k)
    ensures k > 0 && m / 10 < Pow10(k - 1)
  {
  }

  lemma OneDigit(m: nat, text: string)
    requires m > 0
    ensures Digits(m) + text == Digits(m / 10) + ([Digit(m % 10)] + text)
  {
    assert Digits(m) == Digits(m / 10) + [Digit(m % 10)];
  }

  /** `itoa` fills a fixed buffer from its end; 20 bytes are enough for every 64-bit integer. */
  method Itoa(n: int) returns (s: string)
    requires n < 0x8000_0000_0000_0000
    ensures s == if n < 0 then "" else Dec(n)
  {
    if n == 0 {
      return "0";
    }
    var b := new char[20];
    var i: nat := b.Length;
    var m := n;
    ghost var text := "";
    TwentyDigits();
    while m > 0
      invariant i <= 20 && b[i..] == text
      invariant n < 0 ==> m == n && text == ""
      invariant n > 0 ==> 0 <= m < Pow10(i) && Digits(m) + text == Dec(n)
      decreases m
    {
      FewerDigits(m, i);
      OneDigit(m, text);
      i := i - 1;
      b[i] := Digit(m % 10);
      text := [Digit(m % 10)] + text;
      m := m / 10;
    }
    return b[i..];
  }

  datatype Process = Process(name: string, port: int, route: bool, scale: int)

  datatype Start = Start(processes: seq<Process>, namePrefix: string, replaceExisting: bool)

  function Replicas(p: Process): nat {
    if p.scale <= 0 then 1 else p.scale
  }

  function Joined(parts: seq<string>, separator: string): string {
    if parts == [] then ""
    else if |parts| == 1 then parts[0]
    else parts[0] + separator + Joined(parts[1..], separator)
  }

  function NameFrom(cfg: Start, p: Process, replica: string, commit: string): string {
    Joined((if cfg.namePrefix != "" then [cfg.namePrefix] else []) + [p.name] +
           (if commit != "" then [commit] else []) + [replica], "-")
  }

  function ContainerName(cfg: Start, p: Process, replica: nat, commit: string): string {
    NameFrom(cfg, p, Dec(replica), commit)
  }

  lemma NameShape(cfg: Start, p: Process, replica: nat, commit: string)
    ensures ContainerName(cfg, p, replica, commit) ==
            (if cfg.namePrefix != "" then cfg.namePrefix + "-" else "") + p.name +
            (if commit != "" then "-" + commit else "") + "-" + Dec(replica)
  {
    var d := Dec(replica);
    assert [d][1..] == [];
    assert Joined([commit, d], "-") == commit + "-" + d by { assert [commit, d][1..] == [d]; }
    var end := if commit != "" then [commit, d] else [d];
    var text := (if commit != "" then "-" + commit else "") + "-" + d;
    assert Joined([p.name] + end, "-") == p.name + text by {
      assert ([p.name] + end)[1..] == end;
      assert "-" + Joined(end, "-") == text;
    }
    if cfg.namePrefix != "" {
      var all := [cfg.namePrefix] + ([p.name] + end);
      assert all[1..] == [p.name] + end;
      assert [cfg.namePrefix] + [p.name] + (if commit != "" then [commit] else []) + [d] == all;
    } else {
      assert [] + [p.name] + (if commit != "" then [commit] else []) + [d] == [p.name] + end;
    }
  }

  /** A suffix without a dash can be read off the end. */
  lemma LastDash(x: string, d: string, y: string, e: string)
    requires x + "-" + d == y + "-" + e && '-' !in d && '-' !in e
    ensures x == y && d == e
  {
    var s, t := x + "-" + d, y + "-" + e;
    assert s[|x|] == '-' && t[|y|] == '-';
    forall j | |x| < j < |s| ensures s[j] != '-' {
      assert s[j] == d[j - |x| - 1] && d[j - |x| - 1] in d;
    }
    forall j | |y| < j < |t| ensures t[j] != '-' {
      assert t[j] == e[j - |y| - 1] && e[j - |y| - 1] in e;
    }
    assert s[..|x|] == x && t[..|y|] == y && s[|x| + 1..] == d && t[|y| + 1..] == e;
  }

  lemma Between(a: string, x: string, y: string, b: string)
    requires a + x + b == a + y + b
    ensures x == y
  {
    assert |x| == |y|;
    assert (a + x + b)[|a|..|a| + |x|] == x && (a + y + b)[|a|..|a| + |y|] == y;
  }

  /** One release never gives two of its replicas the same name. */
  lemma NamesIdentifyReplicas(cfg: Start, p: Process, i: nat, q: Process, j: nat, commit: string)
    requires ContainerName(cfg, p, i, commit) == ContainerName(cfg, q, j, commit)
    ensures p.name == q.name && i == j
  {
    NameShape(cfg, p, i, commit);
    NameShape(cfg, q, j, commit);
    var a := if cfg.namePrefix != "" then cfg.namePrefix + "-" else "";
    var b := if commit != "" then "-" + commit else "";
    assert '-' !in Dec(i) && '-' !in Dec(j);
    LastDash(a + p.name + b, Dec(i), a + q.name + b, Dec(j));
    Between(a, p.name, q.name, b);
    DecInjective(i, j);
  }

  /** What a container name holds between the prefix and the replica. */
  function Stem(p: Process, commit: string): string {
    p.name + if commit != "" then "-" + commit else ""
  }

  lemma NameIsStem(cfg: Start, p: Process, i: nat, commit: string)
    ensures ContainerName(cfg, p, i, commit) ==
            (if cfg.namePrefix != "" then cfg.namePrefix + "-" else "") + Stem(p, commit) + "-" + Dec(i)
  {
    NameShape(cfg, p, i, commit);
    var a := if cfg.namePrefix != "" then cfg.namePrefix + "-" else "";
    var b := if commit != "" then "-" + commit else "";
    assert a + (p.name + b) == a + p.name + b;
  }

  /** Names, of one release or of two, are equal exactly for the same stem and the same replica. */
  lemma NamesIdentifyStems(cfg: Start, p: Process, i: nat, c: string, q: Process, j: nat, e: string)
    ensures ContainerName(cfg, p, i, c) == ContainerName(cfg, q, j, e) <==> Stem(p, c) == Stem(q, e) && i == j
  {
    NameIsStem(cfg, p, i, c);
    NameIsStem(cfg, q, j, e);
    if ContainerName(cfg, p, i, c) == ContainerName(cfg, q, j, e) {
      var a := if cfg.namePrefix != "" then cfg.namePrefix + "-" else "";
      assert '-' !in Dec(i) && '-' !in Dec(j);
      LastDash(a + Stem(p, c), Dec(i), a + Stem(q, e), Dec(j));
      assert a + Stem(p, c) + "" == a + Stem(p, c) && a + Stem(q, e) + "" == a + Stem(q, e);
      Between(a, Stem(p, c), Stem(q, e), "");
      DecInjective(i, j);
    }
  }

  /** A commit whose place in a name cannot be mistaken: docker names carry it between dashes. */
  predicate PlainCommit(commit: string) {
    commit != "" && '-' !in commit
  }

  /** With such commits, names of two releases are equal only for the same commit, process and replica. */
  lemma NamesIdentifyReleases(cfg: Start, p: Process, i: nat, c: string, q: Process, j: nat, e: string)
    requires PlainCommit(c) && PlainCommit(e)
    ensures ContainerName(cfg, p, i, c) == ContainerName(cfg, q, j, e) <==> p.name == q.name && i == j && c == e
  {
    NamesIdentifyStems(cfg, p, i, c, q, j, e);
    if Stem(p, c) == Stem(q, e) {
      assert p.name + ("-" + c) == p.name + "-" + c && q.name + ("-" + e) == q.name + "-" + e;
      LastDash(p.name, c, q.name, e);
    }
  }

  function ProcessNames(cfg: Start, p: Process, n: nat, commit: string): seq<string> {
    if n == 0 then [] else ProcessNames(cfg, p, n - 1, commit) + [ContainerName(cfg, p, n - 1, commit)]
  }

  /** The containers of the `k`-th process. */
  function NamesOf(cfg: Start, k: nat, commit: string): seq<string>
    requires k < |cfg.processes|
  {
    ProcessNames(cfg, cfg.processes[k], Replicas(cfg.processes[k]), commit)
  }

  /** The containers of the first `n` processes, in the order they are started. */
  function ReleaseNames(cfg: Start, n: nat, commit: string): seq<string>
    requires n <= |cfg.processes|
  {
    if n == 0 then [] else ReleaseNames(cfg, n - 1, commit) + NamesOf(cfg, n - 1, commit)
  }

  /** Those of them that take inbound traffic. */
  function RoutedNames(cfg: Start, n: nat, commit: string): seq<string>
    requires n <= |cfg.processes|
  {
    if n == 0 then []
    else if cfg.processes[n - 1].route then RoutedNames(cfg, n - 1, commit) + NamesOf(cfg, n - 1, commit)
    else RoutedNames(cfg, n - 1, commit)
  }

  /** The whole release. */
  function Release(cfg: Start, commit: string): seq<string> {
    ReleaseNames(cfg, |cfg.processes|, commit)
  }

  function Routed(cfg: Start, commit: string): seq<string> {
    RoutedNames(cfg, |cfg.processes|, commit)
  }

  /** `name` is replica `i` of the `k`-th process. */
  predicate IsReplica(cfg: Start, commit: string, name: string, k: nat, i: nat) {
    && k < |cfg.processes| && (i == 0 || i < cfg.processes[k].scale)
    && name == ContainerName(cfg, cfg.processes[k], i, commit)
  }

  lemma {:induction false} ProcessNameAt(cfg: Start, p: Process, n: nat, commit: string, i: nat)
    requires i < n
    ensures |ProcessNames(cfg, p, n, commit)| == n &&
            ProcessNames(cfg, p, n, commit)[i] == ContainerName(cfg, p, i, commit)
  {
    if n > 1 {
      ProcessNameAt(cfg, p, n - 1, commit, if i < n - 1 then i else 0);
    }
  }

  lemma {:induction false} ProcessNameOrigin(cfg: Start, p: Process, n: nat, commit: string, name: string)
    ensures name in ProcessNames(cfg, p, n, commit) <==>
            exists i: nat :: i < n && name == ContainerName(cfg, p, i, commit)
  {
    if n > 0 {
      ProcessNameOrigin(cfg, p, n - 1, commit, name);
      assert name == ContainerName(cfg, p, n - 1, commit) ==> name in ProcessNames(cfg, p, n, commit);
    }
  }

  lemma NamesOfOrigin(cfg: Start, k: nat, commit: string, name: string)
    requires k < |cfg.processes|
    ensures name in NamesOf(cfg, k, commit) <==> exists i: nat :: IsReplica(cfg, commit, name, k, i)
  {
    ProcessNameOrigin(cfg, cfg.processes[k], Replicas(cfg.processes[k]), commit, name);
    if i: nat :| i < Replicas(cfg.processes[k]) && name == ContainerName(cfg, cfg.processes[k], i, commit) {
      assert IsReplica(cfg, commit, name, k, i);
    }
  }

  /** A release has a container for each replica of each process, and no other. */
  lemma {:induction false} NameOrigin(cfg: Start, n: nat, commit: string, name: string)
    requires n <= |cfg.processes|
    ensures name in ReleaseNames(cfg, n, commit) <==>
            exists k: nat, i: nat :: k < n && IsReplica(cfg, commit, name, k, i)
  {
    if n > 0 {
      NameOrigin(cfg, n - 1, commit, name);
      NamesOfOrigin(cfg, n - 1, commit, name);
    }
  }

  /** Traffic goes to the replicas of the routed processes, and to no other container. */
  lemma {:induction false} RoutedOrigin(cfg: Start, n: nat, commit: string, name: string)
    requires n <= |cfg.processes|
    ensures name in RoutedNames(cfg, n, commit) <==>
              exists k: nat, i: nat :: k < n && IsReplica(cfg, commit, name, k, i) && cfg.processes[k].route
  {
    if n > 0 {
      RoutedOrigin(cfg, n - 1, commit, name);
      NamesOfOrigin(cfg, n - 1, commit, name);
    }
  }

  ghost predicate DistinctProcesses(ps: seq<Process>) {
    forall i, j :: 0 <= i < j < |ps| ==> ps[i].name != ps[j].name
  }

  lemma NamesOfDistinct(cfg: Start, k: nat, commit: string)
    requires k < |cfg.processes|
    ensures NoRepeats(NamesOf(cfg, k, commit))
  {
    var p, names := cfg.processes[k], NamesOf(cfg, k, commit);
    ProcessNameAt(cfg, p, Replicas(p), commit, 0);
    forall i, j | 0 <= i < j < |names| ensures names[i] != names[j] {
      ProcessNameAt(cfg, p, Replicas(p), commit, i);
      ProcessNameAt(cfg, p, Replicas(p), commit, j);
      if names[i] == names[j] {
        NamesIdentifyReplicas(cfg, p, i, p, j, commit);
      }
    }
  }

  lemma AppendDistinct(a: seq<string>, b: seq<string>)
    requires NoRepeats(a) && NoRepeats(b) && forall x <- a :: x !in b
    ensures NoRepeats(a + b)
  {
    var s := a + b;
    forall i, j | 0 <= i < j < |s| ensures s[i] != s[j] {
      if i < |a| <= j {
        assert a[i] in a && b[j - |a|] in b;
      }
    }
  }

  /** A name of an earlier process is no name of a later one. */
  lemma NamesApart(cfg: Start, n: nat, commit: string, name: string)
    requires DistinctProcesses(cfg.processes) && n < |cfg.processes| && name in ReleaseNames(cfg, n, commit)
    ensures name !in NamesOf(cfg, n, commit)
  {
    NameOrigin(cfg, n, commit, name);
    NamesOfOrigin(cfg, n, commit, name);
    var k: nat, i: nat :| k < n && IsReplica(cfg, commit, name, k, i);
    forall j: nat ensures !IsReplica(cfg, commit, name, n, j) {
      if IsReplica(cfg, commit, name, n, j) {
        NamesIdentifyReplicas(cfg, cfg.processes[k], i, cfg.processes[n], j, commit);
      }
    }
  }

  /** The names a validated `Start` uses are pairwise distinct. */
  lemma {:induction false} ReleaseNamesDistinct(cfg: Start, n: nat, commit: string)
    requires DistinctProcesses(cfg.processes) && n <= |cfg.processes|
    ensures NoRepeats(ReleaseNames(cfg, n, commit))
  {
    if n > 0 {
      ReleaseNamesDistinct(cfg, n - 1, commit);
      NamesOfDistinct(cfg, n - 1, commit);
      var earlier, last := ReleaseNames(cfg, n - 1, commit), NamesOf(cfg, n - 1, commit);
      forall x | x in earlier ensures x !in last {
        NamesApart(cfg, n - 1, commit, x);
      }
      AppendDistinct(earlier, last);
    }
  }

  /** Some process of a release and some process of the other are named alike, commits included. */
  ghost predicate StemsMeet(cfg: Start, c: string, e: string) {
    exists k, l :: 0 <= k < |cfg.processes| && 0 <= l < |cfg.processes|
                   && Stem(cfg.processes[k], c) == Stem(cfg.processes[l], e)
  }

  /** Two releases of one definition share a container name exactly when two of their stems are one. */
  lemma ReleasesShareIffStemsMeet(cfg: Start, c: string, e: string)
    ensures Share(Release(cfg, c), Release(cfg, e)) <==> StemsMeet(cfg, c, e)
  {
    var n := |cfg.processes|;
    if Share(Release(cfg, c), Release(cfg, e)) {
      var name :| name in Release(cfg, c) && name in Release(cfg, e);
      NameOrigin(cfg, n, c, name);
      NameOrigin(cfg, n, e, name);
      var k: nat, i: nat :| k < n && IsReplica(cfg, c, name, k, i);
      var l: nat, j: nat :| l < n && IsReplica(cfg, e, name, l, j);
      NamesIdentifyStems(cfg, cfg.processes[k], i, c, cfg.processes[l], j, e);
    }
    if k, l :| 0 <= k < n && 0 <= l < n && Stem(cfg.processes[k], c) == Stem(cfg.processes[l], e) {
      StemsGiveName(cfg, k, c, l, e);
    }
  }

  lemma StemsGiveName(cfg: Start, k: nat, c: string, l: nat, e: string)
    requires k < |cfg.processes| && l < |cfg.processes| && Stem(cfg.processes[k], c) == Stem(cfg.processes[l], e)
    ensures Share(Release(cfg, c), Release(cfg, e))
  {
    var name := ContainerName(cfg, cfg.processes[k], 0, c);
    NamesIdentifyStems(cfg, cfg.processes[k], 0, c, cfg.processes[l], 0, e);
    assert IsReplica(cfg, c, name, k, 0) && IsReplica(cfg, e, name, l, 0);
    NameOrigin(cfg, |cfg.processes|, c, name);
    NameOrigin(cfg, |cfg.processes|, e, name);
    assert name in Release(cfg, c) && name in Release(cfg, e);
  }

  predicate EndsWith(s: string, tail: string) {
    |tail| <= |s| && s[|s| - |tail|..] == tail
  }

  /** Commits whose releases some definition cannot keep apart. */
  predicate Confusable(c: string, e: string) {
    c == e || c == "" || e == "" || EndsWith(c, "-" + e) || EndsWith(e, "-" + c)
  }

  lemma LongerCommitEnds(x: string, c: string, y: string, e: string)
    requires x + "-" + c == y + "-" + e && |c| > |e|
    ensures EndsWith(c, "-" + e)
  {
    var s, tail := x + "-" + c, "-" + e;
    assert s == y + tail && s[|s| - |tail|..] == tail;
    assert forall k :: 0 <= k < |tail| ==> s[|s| - |tail| + k] == tail[k] == c[|c| - |tail| + k];
  }

  lemma EqualStemsConfuse(p: Process, c: string, q: Process, e: string)
    requires Stem(p, c) == Stem(q, e)
    ensures Confusable(c, e)
  {
    if c != "" && e != "" {
      assert p.name + ("-" + c) == p.name + "-" + c && q.name + ("-" + e) == q.name + "-" + e;
      if |c| > |e| {
        LongerCommitEnds(p.name, c, q.name, e);
      } else if |c| < |e| {
        LongerCommitEnds(q.name, e, p.name, c);
      } else {
        var s, t := p.name + "-" + c, q.name + "-" + e;
        assert s[|s| - |c|..] == c && t[|t| - |e|..] == e;
      }
    }
  }

  function Worker(name: string): Process {
    Process(name, 0, false, 1)
  }

  /** The definition that confuses `c` with the shorter, or missing, commit `e`. */
  lemma Confusing(c: string, e: string) returns (cfg: Start)
    requires c != e && (e == "" || EndsWith(c, "-" + e))
    ensures StartValid(cfg) && Share(Release(cfg, c), Release(cfg, e)) && Share(Release(cfg, e), Release(cfg, c))
  {
    var x := if e == "" then "-" + c else "-" + c[..|c| - |e| - 1];
    var p, q := Worker("web"), Worker("web" + x);
    cfg := Start([p, q], "", false);
    if e == "" {
      assert Stem(p, c) == "web" + ("-" + c) == Stem(q, e);
    } else {
      assert c == c[..|c| - |e| - 1] + ("-" + e);
      assert "web" + ("-" + c) == "web" + x + ("-" + e);
      assert Stem(p, c) == Stem(q, e);
    }
    assert |x| > 0 && |q.name| != |p.name|;
    StemsGiveName(cfg, 0, c, 1, e);
    StemsGiveName(cfg, 1, e, 0, c);
  }

  /** Every valid definition keeps two commits' releases apart exactly when they are not confusable. */
  lemma KeptApartIff(c: string, e: string)
    ensures (forall cfg :: StartValid(cfg) ==> !Share(Release(cfg, c), Release(cfg, e))) <==> !Confusable(c, e)
  {
    if Confusable(c, e) {
      var cfg;
      if c == e {
        cfg := Start([Worker("web")], "", false);
        StemsGiveName(cfg, 0, c, 0, e);
      } else if e == "" || EndsWith(c, "-" + e) {
        cfg := Confusing(c, e);
      } else {
        cfg := Confusing(e, c);
      }
      assert StartValid(cfg) && Share(Release(cfg, c), Release(cfg, e));
    } else {
      forall cfg | StartValid(cfg) ensures !Share(Release(cfg, c), Release(cfg, e)) {
        ReleasesShareIffStemsMeet(cfg, c, e);
        forall k, l | 0 <= k < |cfg.processes| && 0 <= l < |cfg.processes|
          ensures Stem(cfg.processes[k], c) != Stem(cfg.processes[l], e)
        {
          if Stem(cfg.processes[k], c) == Stem(cfg.processes[l], e) {
            EqualStemsConfuse(cfg.processes[k], c, cfg.processes[l], e);
          }
        }
      }
    }
  }

  /** A commit with a dash in it can give two releases of one definition a container name in common. */
  lemma DashedCommitCollides() returns (cfg: Start)
    ensures StartValid(cfg) && Share(Release(cfg, "a-b"), Release(cfg, "b"))
  {
    assert "a-b"[1..] == "-b";
    cfg := Confusing("a-b", "b");
  }

  /** With commits that are not empty and hold no dash, two releases share a name only with one commit. */
  lemma ReleasesShareIffSameCommit(cfg: Start, c: string, e: string)
    requires cfg.processes != [] && PlainCommit(c) && PlainCommit(e)
    ensures Share(Release(cfg, c), Release(cfg, e)) <==> c == e
  {
    ReleasesShareIffStemsMeet(cfg, c, e);
    if k, l :| 0 <= k < |cfg.processes| && 0 <= l < |cfg.processes|
               && Stem(cfg.processes[k], c) == Stem(cfg.processes[l], e) {
      NamesIdentifyStems(cfg, cfg.processes[k], 0, c, cfg.processes[l], 0, e);
      NamesIdentifyReleases(cfg, cfg.processes[k], 0, c, cfg.processes[l], 0, e);
    }
    assert Stem(cfg.processes[0], c) == Stem(cfg.processes[0], c);
  }

  ghost predicate Share(a: seq<string>, b: seq<string>) {
    exists name :: name in a && name in b
  }

  // ----- The same, spelled out -----

  /** How many containers process `p` asks for: its scale, or one. */
  function Wanted(p: Process): nat {
    if p.scale > 0 then p.scale else 1
  }

  /** The name of replica `i`: prefix, process, commit and number, the empty ones left out. */
  function Spelled(cfg: Start, p: Process, commit: string, i: nat): string {
    (if cfg.namePrefix != "" then cfg.namePrefix + "-" else "") + p.name
    + (if commit != "" then "-" + commit else "") + "-" + Dec(i)
  }

  /** How many containers the first `k` processes ask for. */
  function WantedBefore(ps: seq<Process>, k: nat): nat
    requires k <= |ps|
  {
    if k == 0 then 0 else WantedBefore(ps, k - 1) + Wanted(ps[k - 1])
  }

  function RoutedBefore(ps: seq<Process>, k: nat): nat
    requires k <= |ps|
  {
    if k == 0 then 0 else RoutedBefore(ps, k - 1) + if ps[k - 1].route then Wanted(ps[k - 1]) else 0
  }

  /** `names` lists every replica of every process, process by process and number by number, and no more. */
  ghost predicate ListsAll(cfg: Start, commit: string, n: nat, names: seq<string>)
    requires n <= |cfg.processes|
  {
    && |names| == WantedBefore(cfg.processes, n)
    && forall k: nat, i: nat {:trigger Spelled(cfg, cfg.processes[k], commit, i)} ::
         k < n && (i == 0 || i < cfg.processes[k].scale) ==>
           var at := WantedBefore(cfg.processes, k) + i;
           at < |names| && names[at] == Spelled(cfg, cfg.processes[k], commit, i)
  }

  /** The same for the processes that take inbound traffic. */
  ghost predicate ListsRouted(cfg: Start, commit: string, n: nat, names: seq<string>)
    requires n <= |cfg.processes|
  {
    && |names| == RoutedBefore(cfg.processes, n)
    && forall k: nat, i: nat {:trigger Spelled(cfg, cfg.processes[k], commit, i)} ::
         k < n && cfg.processes[k].route && (i == 0 || i < cfg.processes[k].scale) ==>
           var at := RoutedBefore(cfg.processes, k) + i;
           at < |names| && names[at] == Spelled(cfg, cfg.processes[k], commit, i)
  }

  /** What one process contributes, by its scale. */
  lemma NamesOfSpelled(cfg: Start, k: nat, commit: string)
    requires k < |cfg.processes|
    ensures |NamesOf(cfg, k, commit)| == Wanted(cfg.processes[k])
    ensures forall i: nat :: i == 0 || i < cfg.processes[k].scale ==>
              i < |NamesOf(cfg, k, commit)| && NamesOf(cfg, k, commit)[i] == Spelled(cfg, cfg.processes[k], commit, i)
  {
    var p := cfg.processes[k];
    ProcessNameAt(cfg, p, Replicas(p), commit, 0);
    forall i: nat | i == 0 || i < p.scale
      ensures i < |NamesOf(cfg, k, commit)| && NamesOf(cfg, k, commit)[i] == Spelled(cfg, p, commit, i)
    {
      ProcessNameAt(cfg, p, Replicas(p), commit, i);
      NameShape(cfg, p, i, commit);
    }
  }

  lemma {:induction false} ReleaseListsAll(cfg: Start, n: nat, commit: string)
    requires n <= |cfg.processes|
    ensures ListsAll(cfg, commit, n, ReleaseNames(cfg, n, commit))
  {
    if n > 0 {
      ReleaseListsAll(cfg, n - 1, commit);
      NamesOfSpelled(cfg, n - 1, commit);
      ListsOneMore(cfg, n - 1, commit, ReleaseNames(cfg, n - 1, commit), NamesOf(cfg, n - 1, commit));
    }
  }

  lemma ListsOneMore(cfg: Start, n: nat, commit: string, names: seq<string>, more: seq<string>)
    requires n < |cfg.processes| && ListsAll(cfg, commit, n, names) && |more| == Wanted(cfg.processes[n])
    requires forall i: nat :: i == 0 || i < cfg.processes[n].scale ==>
               i < |more| && more[i] == Spelled(cfg, cfg.processes[n], commit, i)
    ensures ListsAll(cfg, commit, n + 1, names + more)
  {
  }

  lemma {:induction false} RoutedListsAll(cfg: Start, n: nat, commit: string)
    requires n <= |cfg.processes|
    ensures ListsRouted(cfg, commit, n, RoutedNames(cfg, n, commit))
  {
    if n > 0 {
      RoutedListsAll(cfg, n - 1, commit);
      if cfg.processes[n - 1].route {
        NamesOfSpelled(cfg, n - 1, commit);
        ListsOneMoreRouted(cfg, n - 1, commit, RoutedNames(cfg, n - 1, commit), NamesOf(cfg, n - 1, commit));
      }
    }
  }

  lemma ListsOneMoreRouted(cfg: Start, n: nat, commit: string, names: seq<string>, more: seq<string>)
    requires n < |cfg.processes| && cfg.processes[n].route
    requires ListsRouted(cfg, commit, n, names) && |more| == Wanted(cfg.processes[n])
    requires forall i: nat :: i == 0 || i < cfg.processes[n].scale ==>
               i < |more| && more[i] == Spelled(cfg, cfg.processes[n], commit, i)
    ensures ListsRouted(cfg, commit, n + 1, names + more)
  {
  }

  // ----- Start.Validate -----

  ghost predicate ProcessValid(p: Process) {
    p.name != "" && !(p.route && p.port == 0)
  }

  ghost predicate StartValid(cfg: Start) {
    && cfg.processes != []
    && (forall p <- cfg.processes :: ProcessValid(p))
    && DistinctProcesses(cfg.processes)
  }

  method ValidateStart(cfg: Start) returns (ok: bool)
    ensures ok <==> StartValid(cfg)
    ensures ok <==>
              && |cfg.processes| > 0
              && (forall p <- cfg.processes :: p.name != "" && (p.route ==> p.port != 0))
              && (forall i, j :: 0 <= i < j < |cfg.processes| ==> cfg.processes[i].name != cfg.processes[j].name)
  {
    if |cfg.processes| == 0 {
      return false;
    }
    var seen: set<string> := {};
    for i := 0 to |cfg.processes|
      invariant forall k :: 0 <= k < i ==> ProcessValid(cfg.processes[k])
      invariant forall k :: 0 <= k < i ==> cfg.processes[k].name in seen
      invariant forall name <- seen :: exists k :: 0 <= k < i && cfg.processes[k].name == name
      invariant DistinctProcesses(cfg.processes[..i])
    {
      var p := cfg.processes[i];
      if p.name == "" || (p.route && p.port == 0) {
        assert p in cfg.processes;
        return false;
      }
      if p.name in seen {
        return false;
      }
      seen := seen + {p.name};
    }
    return true;
  }

  // ----- Docker, as a set of running containers and a log of commands -----

  datatype Command = RunContainer(name: string) | StopContainer(name: string)
                   | RemoveContainer(name: string) | Probe(name: string)

  /** A command and whether it succeeded. */
  datatype Op = Op(cmd: Command, ok: bool)

  function Apply(running: set<string>, op: Op): set<string> {
    if op.ok && op.cmd.RunContainer? then running + {op.cmd.name}
    else if op.ok && op.cmd.StopContainer? then running - {op.cmd.name}
    else running
  }

  function After(running: set<string>, ops: seq<Op>): set<string> {
    if ops == [] then running else Apply(After(running, ops[..|ops| - 1]), ops[|ops| - 1])
  }

  /** The daemon may refuse anything, and refuses to run a name that is taken. */
  class Docker {
    const answers: (nat, Command) -> bool
    var running: set<string>
    var log: seq<Op>

    constructor (answers: (nat, Command) -> bool, running: set<string>)
      ensures this.answers == answers && this.running == running && log == []
    {
      this.answers, this.running, log := answers, running, [];
    }

    method Do(c: Command) returns (ok: bool)
      modifies this
      ensures log == old(log) + [Op(c, ok)] && running == Apply(old(running), Op(c, ok))
      ensures ok && c.RunContainer? ==> c.name !in old(running)
    {
      ok := answers(|log|, c) && (c.RunContainer? ==> c.name !in running);
      log := log + [Op(c, ok)];
      running := Apply(running, Op(c, ok));
    }
  }

  ghost predicate NeverStops(ops: seq<Op>) {
    forall op <- ops :: !op.cmd.StopContainer?
  }

  ghost predicate Spares(ops: seq<Op>, name: string) {
    forall op <- ops :: op.cmd.StopContainer? ==> op.cmd.name != name
  }

  lemma {:induction false} SparedStaysUp(running: set<string>, ops: seq<Op>, name: string)
    requires name in running && Spares(ops, name)
    ensures name in After(running, ops)
  {
    if ops != [] {
      SparedStaysUp(running, ops[..|ops| - 1], name);
    }
  }

  lemma NothingStoppedNothingLost(running: set<string>, ops: seq<Op>)
    requires NeverStops(ops)
    ensures running <= After(running, ops)
  {
    forall name | name in running ensures name in After(running, ops) {
      SparedStaysUp(running, ops, name);
    }
  }

  lemma {:induction false} AfterInTwo(running: set<string>, a: seq<Op>, b: seq<Op>)
    ensures After(running, a + b) == After(After(running, a), b)
  {
    if b == [] {
      assert a + b == a;
    } else {
      assert (a + b)[..|a + b| - 1] == a + b[..|b| - 1];
      AfterInTwo(running, a, b[..|b| - 1]);
    }
  }

  lemma {:induction false} DownStaysDown(running: set<string>, ops: seq<Op>, name: string)
    requires name !in running && Op(RunContainer(name), true) !in ops
    ensures name !in After(running, ops)
  {
    if ops != [] {
      DownStaysDown(running, ops[..|ops| - 1], name);
      assert ops[|ops| - 1] in ops;
    }
  }

  // ----- Plans, and how far they were carried out -----

  /** An answer that lets the step go on; under Replace, clearing a name may fail. */
  predicate GoesOn(op: Op, lenient: bool) {
    op.ok || (lenient && !op.cmd.RunContainer?)
  }

  /** `ops` is all of `plan`, in order; or, when the step failed, all up to the command that failed it. */
  ghost predicate Carried(plan: seq<Command>, ops: seq<Op>, failed: bool, lenient: bool) {
    if ops == [] then plan == [] && !failed
    else
      && plan != [] && ops[0].cmd == plan[0]
      && if GoesOn(ops[0], lenient) then Carried(plan[1..], ops[1..], failed, lenient) else failed && |ops| == 1
  }

  lemma {:induction false} CarriedOn(plan: seq<Command>, ops: seq<Op>, more: seq<Command>, done: seq<Op>, failed: bool,
                                     lenient: bool)
    requires Carried(plan, ops, false, lenient) && Carried(more, done, failed, lenient)
    ensures Carried(plan + more, ops + done, failed, lenient)
  {
    if ops == [] {
      assert plan + more == more && ops + done == done;
    } else {
      CarriedOn(plan[1..], ops[1..], more, done, failed, lenient);
      assert (plan + more)[1..] == plan[1..] + more && (ops + done)[1..] == ops[1..] + done;
    }
  }

  lemma {:induction false} CarriedPartly(plan: seq<Command>, ops: seq<Op>, rest: seq<Command>, lenient: bool)
    requires Carried(plan, ops, true, lenient)
    ensures Carried(plan + rest, ops, true, lenient)
  {
    if GoesOn(ops[0], lenient) {
      CarriedPartly(plan[1..], ops[1..], rest, lenient);
      assert (plan + rest)[1..] == plan[1..] + rest;
    }
  }

  /** Only what is planned is done, and when the step succeeds all of it works. */
  lemma {:induction false} CarriedMeans(plan: seq<Command>, ops: seq<Op>, failed: bool, lenient: bool)
    requires Carried(plan, ops, failed, lenient)
    ensures forall op <- ops :: op.cmd in plan
    ensures !failed ==> forall c <- plan :: c.RunContainer? || !lenient ==> Op(c, true) in ops
  {
    if ops != [] && GoesOn(ops[0], lenient) {
      CarriedMeans(plan[1..], ops[1..], failed, lenient);
      assert ops == [ops[0]] + ops[1..] && plan == [plan[0]] + plan[1..];
    }
  }

  lemma {:induction false} CarriedSplit(a: seq<Command>, b: seq<Command>, ops: seq<Op>, lenient: bool)
    requires Carried(a + b, ops, false, lenient)
    ensures |a| <= |ops| && Carried(a, ops[..|a|], false, lenient) && Carried(b, ops[|a|..], false, lenient)
  {
    if a == [] {
      assert a + b == b && ops[0..] == ops;
    } else {
      assert (a + b)[1..] == a[1..] + b;
      CarriedSplit(a[1..], b, ops[1..], lenient);
      assert ops[..|a|][1..] == ops[1..][..|a| - 1] && ops[|a|..] == ops[1..][|a| - 1..];
    }
  }

  lemma CarriedOne(op: Op, lenient: bool)
    ensures Carried([op.cmd], [op], !GoesOn(op, lenient), lenient)
  {
    assert [op.cmd][1..] == [] && [op][1..] == [];
  }

  /** One container: clear its name if Replace says so, then run it. */
  function LaunchPlan(cfg: Start, name: string): seq<Command> {
    (if cfg.replaceExisting then [StopContainer(name), RemoveContainer(name)] else []) + [RunContainer(name)]
  }

  function StartPlan(cfg: Start, names: seq<string>): seq<Command> {
    if names == [] then [] else StartPlan(cfg, names[..|names| - 1]) + LaunchPlan(cfg, names[|names| - 1])
  }

  function ProbePlan(names: seq<string>): seq<Command> {
    seq(|names|, i requires 0 <= i < |names| => Probe(names[i]))
  }

  function StopPlan(stale: seq<string>): seq<Command> {
    if stale == [] then []
    else StopPlan(stale[..|stale| - 1]) + [StopContainer(stale[|stale| - 1]), RemoveContainer(stale[|stale| - 1])]
  }

  /** What is listed and is no part of the release, in the order listed. */
  function Stale(listed: seq<string>, release: seq<string>): seq<string> {
    if listed == [] then []
    else Stale(listed[..|listed| - 1], release) + if listed[|listed| - 1] in release then [] else [listed[|listed| - 1]]
  }

  lemma {:induction false} StartPlanCommands(cfg: Start, names: seq<string>, c: Command)
    ensures c in StartPlan(cfg, names) <==>
              c.name in names && (c.RunContainer? || (cfg.replaceExisting && (c.StopContainer? || c.RemoveContainer?)))
  {
    if names != [] {
      StartPlanCommands(cfg, names[..|names| - 1], c);
      assert c.name in names <==> c.name in names[..|names| - 1] || c.name == names[|names| - 1];
    }
  }

  lemma {:induction false} StartPlanInTwo(cfg: Start, a: seq<string>, b: seq<string>)
    ensures StartPlan(cfg, a + b) == StartPlan(cfg, a) + StartPlan(cfg, b)
  {
    if b == [] {
      assert a + b == a;
    } else {
      assert (a + b)[..|a + b| - 1] == a + b[..|b| - 1];
      StartPlanInTwo(cfg, a, b[..|b| - 1]);
    }
  }

  lemma {:induction false} StopPlanCommands(stale: seq<string>, c: Command)
    ensures c in StopPlan(stale) <==> c.name in stale && (c.StopContainer? || c.RemoveContainer?)
  {
    if stale != [] {
      StopPlanCommands(stale[..|stale| - 1], c);
      assert c.name in stale <==> c.name in stale[..|stale| - 1] || c.name == stale[|stale| - 1];
    }
  }

  /** Without Replace a start is one run for each name, in order. */
  lemma {:induction false} PlainStartInOrder(cfg: Start, names: seq<string>, i: nat)
    requires !cfg.replaceExisting && i < |names|
    ensures |StartPlan(cfg, names)| == |names| && StartPlan(cfg, names)[i] == RunContainer(names[i])
  {
    if |names| > 1 {
      PlainStartInOrder(cfg, names[..|names| - 1], if i < |names| - 1 then i else 0);
    }
  }

  /** Under Replace each run comes right after a stop and a removal of its name, in that order. */
  lemma {:induction false} ReplacingStartInOrder(cfg: Start, names: seq<string>, i: nat)
    requires cfg.replaceExisting && i < |names|
    ensures var plan := StartPlan(cfg, names);
            && |plan| == 3 * |names|
            && plan[3 * i] == StopContainer(names[i]) && plan[3 * i + 1] == RemoveContainer(names[i])
            && plan[3 * i + 2] == RunContainer(names[i])
  {
    if |names| > 1 {
      ReplacingStartInOrder(cfg, names[..|names| - 1], if i < |names| - 1 then i else 0);
    }
  }

  /** A retirement stops each name, and then removes it, before it comes to the next. */
  lemma {:induction false} StopInOrder(stale: seq<string>, i: nat)
    requires i < |stale|
    ensures var plan := StopPlan(stale);
            && |plan| == 2 * |stale|
            && plan[2 * i] == StopContainer(stale[i]) && plan[2 * i + 1] == RemoveContainer(stale[i])
  {
    if |stale| > 1 {
      StopInOrder(stale[..|stale| - 1], if i < |stale| - 1 then i else 0);
    }
  }

  /** What is stale keeps the order, and the repetitions, of the listing. */
  lemma {:induction false} StaleInTwo(a: seq<string>, b: seq<string>, release: seq<string>)
    ensures Stale(a + b, release) == Stale(a, release) + Stale(b, release)
    ensures |b| == 1 ==> Stale(b, release) == if b[0] in release then [] else b
  {
    if b == [] {
      assert a + b == a;
    } else {
      assert (a + b)[..|a + b| - 1] == a + b[..|b| - 1];
      StaleInTwo(a, b[..|b| - 1], release);
    }
  }

  lemma {:induction false} StaleMembers(listed: seq<string>, release: seq<string>, name: string)
    ensures name in Stale(listed, release) <==> name in listed && name !in release
  {
    if listed != [] {
      StaleMembers(listed[..|listed| - 1], release, name);
      assert name in listed <==> name in listed[..|listed| - 1] || name == listed[|listed| - 1];
    }
  }

  // ----- What each step does to the bag and to docker -----

  function Commit(values: Values): string {
    match GetText(values, KEY_COMMIT)
    case Ok(c) => c
    case Err(_) => ""
  }

  /** `ops` is what running `names` takes; nothing in a rehearsal. */
  ghost predicate Launched(cfg: Start, names: seq<string>, dry: bool, failed: bool, ops: seq<Op>) {
    if dry then !failed && ops == [] else Carried(StartPlan(cfg, names), ops, failed, true)
  }

  /** Runs the whole release in order, and names it only when all of it was run. */
  ghost predicate StartEffect(cfg: Start, dry: bool, before: Values, after: Values, failed: bool, ops: seq<Op>) {
    var names := Release(cfg, Commit(before));
    if GetText(before, KEY_IMAGE).Err? then failed && ops == [] && after == before
    else
      && Launched(cfg, names, dry, failed, ops)
      && after == if failed then before
                  else before[KEY_CONTAINERS := Names(names)][KEY_ROUTED := Names(Routed(cfg, Commit(before)))]
  }

  /** A start that succeeds, spelled out: what it stores under both keys, and what it has run. */
  ghost predicate StartSpelled(cfg: Start, dry: bool, before: Values, after: Values, ops: seq<Op>) {
    var commit := if KEY_COMMIT in before && before[KEY_COMMIT].Text? then before[KEY_COMMIT].text else "";
    && KEY_CONTAINERS in after && after[KEY_CONTAINERS].Names?
    && KEY_ROUTED in after && after[KEY_ROUTED].Names?
    && ListsAll(cfg, commit, |cfg.processes|, after[KEY_CONTAINERS].names)
    && ListsRouted(cfg, commit, |cfg.processes|, after[KEY_ROUTED].names)
    && (!dry ==> forall name <- after[KEY_CONTAINERS].names :: Op(RunContainer(name), true) in ops)
  }

  lemma StartIsSpelled(cfg: Start, dry: bool, before: Values, after: Values, ops: seq<Op>)
    requires StartEffect(cfg, dry, before, after, false, ops)
    ensures StartSpelled(cfg, dry, before, after, ops)
  {
    var names := Release(cfg, Commit(before));
    assert KEY_CONTAINERS != KEY_ROUTED;
    ReleaseListsAll(cfg, |cfg.processes|, Commit(before));
    RoutedListsAll(cfg, |cfg.processes|, Commit(before));
    if !dry {
      CarriedMeans(StartPlan(cfg, names), ops, false, true);
      forall name | name in names ensures Op(RunContainer(name), true) in ops {
        StartPlanCommands(cfg, names, RunContainer(name));
      }
    }
  }

  /** Probes the containers in the bag one after the other. */
  ghost predicate WaitEffect(dry: bool, before: Values, after: Values, failed: bool, ops: seq<Op>) {
    var containers := GetNames(before, KEY_CONTAINERS);
    && after == before
    && if containers.Err? then failed && ops == []
       else if dry then !failed && ops == []
       else Carried(ProbePlan(containers.value), ops, failed, false)
  }

  /** Stops and removes, in order, what is listed outside the release; `cut` ends the drain before it. */
  ghost predicate StopEffect(listed: Option<seq<string>>, cut: bool, dry: bool, before: Values, after: Values,
                             failed: bool, ops: seq<Op>) {
    var containers := GetNames(before, KEY_CONTAINERS);
    && after == before
    && if containers.Err? then failed && ops == []
       else if listed.None? then failed == !dry && ops == []
       else
         var stale := Stale(listed.value, containers.value);
         if stale == [] || dry then !failed && ops == []
         else if cut then failed && ops == []
         else Carried(StopPlan(stale), ops, failed, false)
  }

  // ----- The steps themselves -----

  /** One replica. A rehearsal runs nothing. */
  method Launch(cfg: Start, d: Docker, name: string, dry: bool) returns (ok: bool, ghost ops: seq<Op>)
    modifies d
    ensures d.log == old(d.log) + ops
    ensures Launched(cfg, [name], dry, !ok, ops)
  {
    if dry {
      return true, [];
    }
    ops := [];
    if cfg.replaceExisting {
      var stopped := d.Do(StopContainer(name));
      var removed := d.Do(RemoveContainer(name));
      ops := [Op(StopContainer(name), stopped), Op(RemoveContainer(name), removed)];
    }
    ok := d.Do(RunContainer(name));
    LaunchedOne(cfg, name, ops, ok);
    ops := ops + [Op(RunContainer(name), ok)];
  }

  lemma LaunchedOn(cfg: Start, a: seq<string>, ops: seq<Op>, b: seq<string>, done: seq<Op>, dry: bool, failed: bool)
    requires Launched(cfg, a, dry, false, ops) && Launched(cfg, b, dry, failed, done)
    ensures Launched(cfg, a + b, dry, failed, ops + done)
  {
    if !dry {
      StartPlanInTwo(cfg, a, b);
      CarriedOn(StartPlan(cfg, a), ops, StartPlan(cfg, b), done, failed, true);
    }
  }

  lemma LaunchedPartly(cfg: Start, a: seq<string>, ops: seq<Op>, b: seq<string>, dry: bool)
    requires Launched(cfg, a, dry, true, ops)
    ensures Launched(cfg, a + b, dry, true, ops)
  {
    StartPlanInTwo(cfg, a, b);
    CarriedPartly(StartPlan(cfg, a), ops, StartPlan(cfg, b), true);
  }

  /** What one launch asks for: the answers to the speculative stop and remove do not matter. */
  lemma LaunchedOne(cfg: Start, name: string, cleared: seq<Op>, ok: bool)
    requires if cfg.replaceExisting
             then |cleared| == 2 && cleared[0].cmd == StopContainer(name) && cleared[1].cmd == RemoveContainer(name)
             else cleared == []
    ensures Launched(cfg, [name], false, !ok, cleared + [Op(RunContainer(name), ok)])
  {
    var last := Op(RunContainer(name), ok);
    assert [name][..0] == [];
    assert [] + LaunchPlan(cfg, name) == LaunchPlan(cfg, name) == StartPlan(cfg, [name]);
    CarriedOne(last, true);
    if cfg.replaceExisting {
      CarriedOne(cleared[0], true);
      CarriedOne(cleared[1], true);
      CarriedOn([cleared[0].cmd], [cleared[0]], [cleared[1].cmd], [cleared[1]], false, true);
      assert [cleared[0]] + [cleared[1]] == cleared;
      CarriedOn([cleared[0].cmd] + [cleared[1].cmd], cleared, [last.cmd], [last], !ok, true);
      assert [cleared[0].cmd] + [cleared[1].cmd] + [last.cmd] == LaunchPlan(cfg, name);
    } else {
      assert [] + [last] == [last];
    }
  }

  /** A failure within the first `i` replicas of a process fails it as a whole. */
  lemma {:induction false} ProcessBrokenOff(cfg: Start, p: Process, n: nat, commit: string, i: nat, ops: seq<Op>,
                                            dry: bool)
    requires i <= n && Launched(cfg, ProcessNames(cfg, p, i, commit), dry, true, ops)
    ensures Launched(cfg, ProcessNames(cfg, p, n, commit), dry, true, ops)
  {
    if i < n {
      ProcessBrokenOff(cfg, p, n - 1, commit, i, ops, dry);
      LaunchedPartly(cfg, ProcessNames(cfg, p, n - 1, commit), ops, [ContainerName(cfg, p, n - 1, commit)], dry);
    }
  }

  /** The replicas of one process. */
  method StartProcess(cfg: Start, p: Process, commit: string, d: Docker, dry: bool)
    returns (failed: bool, started: seq<string>, ghost ops: seq<Op>)
    requires p.scale < 0x8000_0000_0000_0000
    modifies d
    ensures d.log == old(d.log) + ops
    ensures Launched(cfg, ProcessNames(cfg, p, Replicas(p), commit), dry, failed, ops)
    ensures !failed ==> started == ProcessNames(cfg, p, Replicas(p), commit)
  {
    started, ops := [], [];
    for i := 0 to Replicas(p)
      invariant d.log == old(d.log) + ops
      invariant started == ProcessNames(cfg, p, i, commit) && Launched(cfg, started, dry, false, ops)
    {
      var replica := Itoa(i);
      var name := NameFrom(cfg, p, replica, commit);
      var ok;
      ghost var done;
      ok, done := Launch(cfg, d, name, dry);
      LaunchedOn(cfg, started, ops, [name], done, dry, !ok);
      started, ops := started + [name], ops + done;
      if !ok {
        ProcessBrokenOff(cfg, p, Replicas(p), commit, i + 1, ops, dry);
        return true, started, ops;
      }
    }
    return false, started, ops;
  }

  /** A start that fails within the first `k` processes fails as a whole. */
  lemma {:induction false} BrokenOff(cfg: Start, n: nat, k: nat, commit: string, ops: seq<Op>, dry: bool)
    requires k <= n <= |cfg.processes| && Launched(cfg, ReleaseNames(cfg, k, commit), dry, true, ops)
    ensures Launched(cfg, ReleaseNames(cfg, n, commit), dry, true, ops)
  {
    if k < n {
      BrokenOff(cfg, n - 1, k, commit, ops, dry);
      LaunchedPartly(cfg, ReleaseNames(cfg, n - 1, commit), ops, NamesOf(cfg, n - 1, commit), dry);
    }
  }

  /** One more process: the release goes on, or the whole of it has failed. */
  lemma LaunchedNext(cfg: Start, k: nat, commit: string, ops: seq<Op>, done: seq<Op>, dry: bool, failed: bool)
    requires k < |cfg.processes|
    requires Launched(cfg, ReleaseNames(cfg, k, commit), dry, false, ops)
    requires Launched(cfg, NamesOf(cfg, k, commit), dry, failed, done)
    ensures if failed then Launched(cfg, Release(cfg, commit), dry, true, ops + done)
            else Launched(cfg, ReleaseNames(cfg, k + 1, commit), dry, false, ops + done)
  {
    LaunchedOn(cfg, ReleaseNames(cfg, k, commit), ops, NamesOf(cfg, k, commit), done, dry, failed);
    if failed {
      BrokenOff(cfg, |cfg.processes|, k + 1, commit, ops + done, dry);
    }
  }

  /** All the processes, in the order they were given. */
  method StartAll(cfg: Start, commit: string, d: Docker, dry: bool)
    returns (failed: bool, started: seq<string>, routed: seq<string>, ghost ops: seq<Op>)
    requires forall p <- cfg.processes :: p.scale < 0x8000_0000_0000_0000
    modifies d
    ensures d.log == old(d.log) + ops
    ensures Launched(cfg, Release(cfg, commit), dry, failed, ops)
    ensures !failed ==> && started == Release(cfg, commit)
                        && routed == Routed(cfg, commit)
  {
    started, routed, ops := [], [], [];
    for k := 0 to |cfg.processes|
      invariant d.log == old(d.log) + ops
      invariant started == ReleaseNames(cfg, k, commit) && routed == RoutedNames(cfg, k, commit)
      invariant Launched(cfg, ReleaseNames(cfg, k, commit), dry, false, ops)
    {
      var p := cfg.processes[k];
      assert p in cfg.processes;
      var broken, names;
      ghost var done;
      broken, names, done := StartProcess(cfg, p, commit, d, dry);
      LaunchedNext(cfg, k, commit, ops, done, dry, broken);
      ops := ops + done;
      if broken {
        return true, started, routed, ops;
      }
      started := started + names;
      if p.route {
        routed := routed + names;
      }
    }
    return false, started, routed, ops;
  }

  method StartRun(cfg: Start, s: State, d: Docker, dry: bool) returns (failed: bool, ghost ops: seq<Op>)
    requires forall p <- cfg.processes :: p.scale < 0x8000_0000_0000_0000
    modifies s, d
    ensures d.log == old(d.log) + ops
    ensures StartEffect(cfg, dry, old(s.values), s.values, failed, ops)
    ensures !failed ==> StartSpelled(cfg, dry, old(s.values), s.values, ops)
    ensures KEY_IMAGE !in old(s.values) || !old(s.values)[KEY_IMAGE].Text? ==> failed && ops == []
  {
    var image := GetText(s.values, KEY_IMAGE);
    if image.Err? {
      return true, [];
    }
    var started, routed;
    failed, started, routed, ops := StartAll(cfg, Commit(s.values), d, dry);
    if failed {
      return failed, ops;
    }
    s.Set(KEY_CONTAINERS, Names(started));
    s.Set(KEY_ROUTED, Names(routed));
    StartIsSpelled(cfg, dry, old(s.values), s.values, ops);
  }

  method WaitHealthyRun(s: State, d: Docker, dry: bool) returns (failed: bool, ghost ops: seq<Op>)
    modifies d
    ensures d.log == old(d.log) + ops
    ensures WaitEffect(dry, old(s.values), s.values, failed, ops)
    ensures KEY_CONTAINERS !in s.values || !s.values[KEY_CONTAINERS].Names? ==> failed && ops == []
  {
    ops := [];
    var containers := GetNames(s.values, KEY_CONTAINERS);
    if containers.Err? {
      return true, ops;
    }
    if dry {
      return false, ops;
    }
    var names := containers.value;
    for i := 0 to |names|
      invariant d.log == old(d.log) + ops && Carried(ProbePlan(names[..i]), ops, false, false)
    {
      var healthy := d.Do(Probe(names[i]));
      CarriedOne(Op(Probe(names[i]), healthy), false);
      CarriedOn(ProbePlan(names[..i]), ops, [Probe(names[i])], [Op(Probe(names[i]), healthy)], !healthy, false);
      assert ProbePlan(names[..i]) + [Probe(names[i])] == ProbePlan(names[..i + 1]);
      ops := ops + [Op(Probe(names[i]), healthy)];
      if !healthy {
        CarriedPartly(ProbePlan(names[..i + 1]), ops, ProbePlan(names[i + 1..]), false);
        assert ProbePlan(names[..i + 1]) + ProbePlan(names[i + 1..]) == ProbePlan(names);
        return true, ops;
      }
    }
    assert names[..|names|] == names;
    return false, ops;
  }

  /** Stopping and removing one container. */
  method Retire(d: Docker, name: string) returns (ok: bool, ghost ops: seq<Op>)
    modifies d
    ensures d.log == old(d.log) + ops
    ensures Carried([StopContainer(name), RemoveContainer(name)], ops, !ok, false)
  {
    ok := d.Do(StopContainer(name));
    ghost var stop := Op(StopContainer(name), ok);
    CarriedOne(stop, false);
    assert [stop.cmd, RemoveContainer(name)] == [stop.cmd] + [RemoveContainer(name)];
    if !ok {
      CarriedPartly([stop.cmd], [stop], [RemoveContainer(name)], false);
      return ok, [stop];
    }
    ok := d.Do(RemoveContainer(name));
    ghost var remove := Op(RemoveContainer(name), ok);
    CarriedOne(remove, false);
    CarriedOn([stop.cmd], [stop], [remove.cmd], [remove], !ok, false);
    return ok, [stop] + [remove];
  }

  lemma {:induction false} RetireBrokenOff(stale: seq<string>, i: nat, ops: seq<Op>)
    requires i <= |stale| && Carried(StopPlan(stale[..i]), ops, true, false)
    ensures Carried(StopPlan(stale), ops, true, false)
  {
    if i == |stale| {
      assert stale[..i] == stale;
    } else {
      var front, last := stale[..|stale| - 1], stale[|stale| - 1];
      assert front[..i] == stale[..i];
      RetireBrokenOff(front, i, ops);
      CarriedPartly(StopPlan(front), ops, [StopContainer(last), RemoveContainer(last)], false);
    }
  }

  /** `listed` is what the prefix listing answers; `cut` is the context ending during the drain. */
  method StopPreviousRun(s: State, d: Docker, dry: bool, listed: Option<seq<string>>, drain: int, cut: bool)
    returns (failed: bool, ghost ops: seq<Op>)
    modifies d
    ensures d.log == old(d.log) + ops
    ensures StopEffect(listed, drain > 0 && cut, dry, old(s.values), s.values, failed, ops)
    ensures KEY_CONTAINERS !in s.values || !s.values[KEY_CONTAINERS].Names? ==> failed && ops == []
  {
    ops := [];
    var current := GetNames(s.values, KEY_CONTAINERS);
    if current.Err? {
      return true, ops;
    }
    if listed.None? {
      return !dry, ops;
    }
    var keep := set c <- current.value;
    var stale: seq<string> := [];
    for i := 0 to |listed.value|
      invariant stale == Stale(listed.value[..i], current.value)
    {
      assert listed.value[..i + 1][..i] == listed.value[..i];
      if listed.value[i] !in keep {
        stale := stale + [listed.value[i]];
      }
    }
    assert listed.value[..|listed.value|] == listed.value;
    if |stale| == 0 {
      return false, ops;
    }
    if dry {
      return false, ops;
    }
    if drain > 0 && cut {
      return true, ops;
    }
    failed, ops := RetireAll(d, stale);
  }

  method RetireAll(d: Docker, stale: seq<string>) returns (failed: bool, ghost ops: seq<Op>)
    modifies d
    ensures d.log == old(d.log) + ops
    ensures Carried(StopPlan(stale), ops, failed, false)
  {
    ops := [];
    for i := 0 to |stale|
      invariant d.log == old(d.log) + ops && Carried(StopPlan(stale[..i]), ops, false, false)
    {
      var ok;
      ghost var done;
      ok, done := Retire(d, stale[i]);
      assert stale[..i + 1][..i] == stale[..i];
      CarriedOn(StopPlan(stale[..i]), ops, [StopContainer(stale[i]), RemoveContainer(stale[i])], done, !ok, false);
      ops := ops + done;
      if !ok {
        RetireBrokenOff(stale, i + 1, ops);
        return true, ops;
      }
    }
    assert stale[..|stale|] == stale;
    return false, ops;
  }

  // ----- What follows for a real run -----

  /** One launch leaves its container running and stops no other. */
  lemma LaunchBringsUp(cfg: Start, name: string, running: set<string>, ops: seq<Op>)
    requires Carried(LaunchPlan(cfg, name), ops, false, true)
    ensures name in After(running, ops)
    ensures forall other :: other != name ==> Spares(ops, other)
  {
    var clear: seq<Command> := if cfg.replaceExisting then [StopContainer(name), RemoveContainer(name)] else [];
    CarriedMeans(LaunchPlan(cfg, name), ops, false, true);
    CarriedSplit(clear, [RunContainer(name)], ops, true);
    var last := ops[|clear|..];
    assert last[1..] == [] && last[0] == Op(RunContainer(name), true);
    AfterInTwo(running, ops[..|clear|], last);
    assert ops == ops[..|clear|] + last;
    assert last[..0] == [];
  }

  /** A start that succeeds leaves its whole release running, whatever Replace cleared on the way. */
  lemma {:induction false} StartBringsUp(cfg: Start, names: seq<string>, running: set<string>, ops: seq<Op>)
    requires Carried(StartPlan(cfg, names), ops, false, true)
    ensures forall name <- names :: name in After(running, ops)
  {
    if names != [] {
      var front, last := names[..|names| - 1], names[|names| - 1];
      var n := |StartPlan(cfg, front)|;
      CarriedSplit(StartPlan(cfg, front), LaunchPlan(cfg, last), ops, true);
      StartBringsUp(cfg, front, running, ops[..n]);
      var midway := After(running, ops[..n]);
      LaunchBringsUp(cfg, last, midway, ops[n..]);
      AfterInTwo(running, ops[..n], ops[n..]);
      assert ops == ops[..n] + ops[n..];
      forall name | name in names ensures name in After(midway, ops[n..]) {
        if name != last {
          assert name in front;
          SparedStaysUp(midway, ops[n..], name);
        }
      }
    }
  }

  /** A start touches only its release, which runs when it succeeds; without Replace it stops nothing. */
  lemma StartMeans(cfg: Start, before: Values, after: Values, failed: bool, ops: seq<Op>)
    requires StartEffect(cfg, false, before, after, failed, ops)
    ensures forall op <- ops :: op.cmd.name in Release(cfg, Commit(before))
    ensures !cfg.replaceExisting ==> NeverStops(ops)
    ensures !failed ==> forall name <- Release(cfg, Commit(before)) :: Op(RunContainer(name), true) in ops
    ensures !failed ==> forall running: set<string> :: AllIn(Release(cfg, Commit(before)), After(running, ops))
  {
    var names := Release(cfg, Commit(before));
    if GetText(before, KEY_IMAGE).Ok? {
      CarriedMeans(StartPlan(cfg, names), ops, failed, true);
      forall op | op in ops ensures op.cmd.name in names && (op.cmd.StopContainer? ==> cfg.replaceExisting) {
        StartPlanCommands(cfg, names, op.cmd);
      }
      forall name | name in names ensures !failed ==> Op(RunContainer(name), true) in ops {
        StartPlanCommands(cfg, names, RunContainer(name));
      }
      forall running: set<string> | !failed ensures AllIn(names, After(running, ops)) {
        StartBringsUp(cfg, names, running, ops);
      }
    }
  }

  ghost predicate AllIn(names: seq<string>, running: set<string>) {
    forall name <- names :: name in running
  }

  /** Only probes, and a successful wait had a good answer from every container of the release. */
  lemma WaitMeans(before: Values, after: Values, failed: bool, ops: seq<Op>)
    requires WaitEffect(false, before, after, failed, ops)
    ensures NeverStops(ops)
    ensures !failed ==> GetNames(before, KEY_CONTAINERS).Ok?
    ensures !failed ==> forall name <- GetNames(before, KEY_CONTAINERS).value :: Op(Probe(name), true) in ops
  {
    var containers := GetNames(before, KEY_CONTAINERS);
    if containers.Ok? {
      CarriedMeans(ProbePlan(containers.value), ops, failed, false);
      forall name | name in containers.value ensures !failed ==> Op(Probe(name), true) in ops {
        var i :| 0 <= i < |containers.value| && containers.value[i] == name;
        assert ProbePlan(containers.value)[i] == Probe(name);
      }
    }
  }

  ghost predicate Retires(listed: Option<seq<string>>, before: Values, failed: bool, ops: seq<Op>) {
    && (ops != [] || !failed ==> GetNames(before, KEY_CONTAINERS).Ok? && listed.Some?)
    && (forall op <- ops :: && (op.cmd.StopContainer? || op.cmd.RemoveContainer?)
                            && op.cmd.name in listed.value && op.cmd.name !in GetNames(before, KEY_CONTAINERS).value)
    && (!failed ==> forall name <- listed.value :: name !in GetNames(before, KEY_CONTAINERS).value ==>
                      Op(StopContainer(name), true) in ops && Op(RemoveContainer(name), true) in ops)
  }

  /** The release is not touched; a successful retirement has stopped all else that was listed. */
  lemma StopMeans(listed: Option<seq<string>>, cut: bool, before: Values, after: Values, failed: bool, ops: seq<Op>)
    requires StopEffect(listed, cut, false, before, after, failed, ops)
    ensures Retires(listed, before, failed, ops)
  {
    var containers := GetNames(before, KEY_CONTAINERS);
    if containers.Ok? && listed.Some? {
      var stale := Stale(listed.value, containers.value);
      forall name ensures name in stale <==> name in listed.value && name !in containers.value {
        StaleMembers(listed.value, containers.value, name);
      }
      forall c ensures c in StopPlan(stale) <==> c.name in stale && (c.StopContainer? || c.RemoveContainer?) {
        StopPlanCommands(stale, c);
      }
      if stale != [] && !cut {
        CarriedMeans(StopPlan(stale), ops, failed, false);
      }
    }
  }

  // ----- The deploy: any pipeline that orders the three steps, under any debugger -----

  /** A deploy pipeline and what each execution of each of its steps does to docker. */
  datatype Deploy = Deploy(steps: seq<Wiring.Step>, start: nat, wait: nat, stop: nat, cfg: Start,
                           w: World, ops: (nat, nat, Values) -> seq<Op>,
                           listed: (nat, nat, Values) -> Option<seq<string>>, cut: (nat, nat, Values) -> bool)

  ghost predicate Plausible(d: Deploy) {
    && d.start < d.wait < d.stop < |d.steps|
    && Wiring.Wired(d.steps) && Honours(d.steps, d.w)
    && KEY_CONTAINERS in d.steps[d.start].gives
    && StartValid(d.cfg)
    && forall n: nat, i: nat, v {:trigger d.w.attempt(n, i, v)} :: i < |d.steps| ==>
         Effect(d, i, v, d.w.attempt(n, i, v), d.ops(n, i, v), d.listed(n, i, v), d.cut(n, i, v))
  }

  ghost predicate Effect(d: Deploy, i: nat, v: Values, a: Attempt, ops: seq<Op>, listed: Option<seq<string>>,
                         cut: bool) {
    if i == d.start then StartEffect(d.cfg, false, v, a.after, a.failed, ops)
    else if i == d.wait then WaitEffect(false, v, a.after, a.failed, ops)
    else if i == d.stop then StopEffect(listed, cut, false, v, a.after, a.failed, ops)
    else NeverStops(ops)
  }

  /** What turn `k` did to docker. */
  function OpsOf(d: Deploy, t: seq<Turn>, k: nat): seq<Op>
    requires k < |t|
  {
    d.ops(k, t[k].index, t[k].before)
  }

  lemma TurnEffect(d: Deploy, init: Values, attached: bool, t: seq<Turn>, k: nat)
    requires Plausible(d) && Lawful(|d.steps|, d.w, init, attached, t) && k < |t|
    ensures Effect(d, t[k].index, t[k].before, Attempt(t[k].after, t[k].failed), OpsOf(d, t, k),
                   d.listed(k, t[k].index, t[k].before), d.cut(k, t[k].index, t[k].before))
  {
    assert TurnLaw(|d.steps|, d.w, init, attached, t, k);
    var _ := d.w.attempt(k, t[k].index, t[k].before);
  }

  /** What turn `k` may have stopped, and what its success says about docker. */
  lemma TurnMeans(d: Deploy, init: Values, attached: bool, t: seq<Turn>, k: nat)
    requires Plausible(d) && Lawful(|d.steps|, d.w, init, attached, t) && k < |t|
    ensures t[k].index != d.start && t[k].index != d.stop ==> NeverStops(OpsOf(d, t, k))
    ensures t[k].index == d.start ==>
              forall op <- OpsOf(d, t, k) :: op.cmd.StopContainer? ==>
                d.cfg.replaceExisting && op.cmd.name in Release(d.cfg, Commit(t[k].before))
    ensures t[k].index == d.wait && !t[k].failed ==>
              && GetNames(t[k].before, KEY_CONTAINERS).Ok?
              && forall name <- GetNames(t[k].before, KEY_CONTAINERS).value :: Op(Probe(name), true) in OpsOf(d, t, k)
    ensures t[k].index == d.stop ==> Retires(d.listed(k, d.stop, t[k].before), t[k].before, t[k].failed, OpsOf(d, t, k))
  {
    TurnEffect(d, init, attached, t, k);
    var ops := OpsOf(d, t, k);
    if t[k].index == d.start {
      StartMeans(d.cfg, t[k].before, t[k].after, t[k].failed, ops);
    } else if t[k].index == d.wait {
      WaitMeans(t[k].before, t[k].after, t[k].failed, ops);
    } else if t[k].index == d.stop {
      StopMeans(d.listed(k, d.stop, t[k].before), d.cut(k, d.stop, t[k].before), t[k].before, t[k].after, t[k].failed,
                ops);
    }
  }

  /** Turn `k` sees exactly the release that turn `q`, an execution of the start step, brought up. */
  ghost predicate SeesRelease(d: Deploy, t: seq<Turn>, k: nat, q: nat, names: seq<string>)
    requires k < |t|
  {
    && LastOf(t, k, d.start, q) && !t[q].failed
    && names == Release(d.cfg, Commit(t[q].before))
    && GetNames(t[k].before, KEY_CONTAINERS) == Ok(names)
  }

  lemma ReleaseInSight(d: Deploy, init: Values, attached: bool, t: seq<Turn>, k: nat)
    returns (q: nat, names: seq<string>)
    requires Plausible(d) && Lawful(|d.steps|, d.w, init, attached, t)
    requires k < |t| && d.start < t[k].index
    ensures SeesRelease(d, t, k, q, names) && NoRepeats(names)
  {
    Provenance(d.steps, d.w, init, attached, t, k, d.start, KEY_CONTAINERS);
    q :| && LastOf(t, k, d.start, q) && !t[q].failed
         && KEY_CONTAINERS in t[q].after && KEY_CONTAINERS in t[k].before
         && t[k].before[KEY_CONTAINERS] == t[q].after[KEY_CONTAINERS];
    TurnEffect(d, init, attached, t, q);
    names := Release(d.cfg, Commit(t[q].before));
    assert KEY_CONTAINERS != KEY_ROUTED;
    ReleaseNamesDistinct(d.cfg, |d.cfg.processes|, Commit(t[q].before));
  }

  /** Before turn `k`, a successful wait had a good answer from every one of `names`. */
  ghost predicate ProvedHealthy(d: Deploy, t: seq<Turn>, k: nat, names: seq<string>)
    requires k <= |t|
  {
    exists m: nat :: && m < k && t[m].index == d.wait && !t[m].failed
                     && forall name <- names :: Op(Probe(name), true) in OpsOf(d, t, m)
  }

  /** Under Replace, a start step among the first `n` turns cleared this name for its own release. */
  ghost predicate Replaced(d: Deploy, t: seq<Turn>, n: nat, name: string)
    requires n <= |t|
  {
    && d.cfg.replaceExisting
    && exists k :: 0 <= k < n && t[k].index == d.start && name in Release(d.cfg, Commit(t[k].before))
  }

  /**
   * Whatever fails, is cancelled, replayed or abandoned: a container is stopped only by the retiring
   * step, if it is not in the release, and after the whole release proved healthy; or by the start step
   * under Replace, if it holds a name of the release being started.
   */
  lemma StopsOnlyAfterHealthy(d: Deploy, init: Values, attached: bool, t: seq<Turn>, k: nat, op: Op)
    returns (q: nat, names: seq<string>)
    requires Plausible(d) && Lawful(|d.steps|, d.w, init, attached, t)
    requires k < |t| && op in OpsOf(d, t, k) && op.cmd.StopContainer?
    ensures if t[k].index == d.start then
              names == Release(d.cfg, Commit(t[k].before)) && d.cfg.replaceExisting && op.cmd.name in names
            else
              && t[k].index == d.stop
              && SeesRelease(d, t, k, q, names) && NoRepeats(names)
              && op.cmd.name !in names
              && ProvedHealthy(d, t, k, names)
  {
    TurnMeans(d, init, attached, t, k);
    if t[k].index == d.start {
      q, names := 0, Release(d.cfg, Commit(t[k].before));
    } else {
      q, names := ReleaseInSight(d, init, attached, t, k);
      HealthyBefore(d, init, attached, t, k, q, names);
    }
  }

  /** Between a wait and what follows it, the release is not started again. */
  lemma StartsBeforeWaits(d: Deploy, init: Values, attached: bool, t: seq<Turn>, q: nat, m: nat, k: nat)
    requires Plausible(d) && Lawful(|d.steps|, d.w, init, attached, t)
    requires m < k < |t| && t[m].index == d.wait && LastOf(t, k, d.start, q)
    ensures LastOf(t, m, d.start, q)
  {
    forall j | m <= j < k ensures t[j].index != d.start {
      IndexClimbs(|d.steps|, d.w, init, attached, t, m, j);
    }
  }

  /** The commands of the first `n` turns. */
  function Commands(d: Deploy, t: seq<Turn>, n: nat): seq<Op>
    requires n <= |t|
  {
    if n == 0 then [] else Commands(d, t, n - 1) + OpsOf(d, t, n - 1)
  }

  /** Nothing was stopped but names that Replace cleared. */
  ghost predicate StoppedOnlyReplaced(d: Deploy, t: seq<Turn>, n: nat)
    requires n <= |t|
  {
    forall op <- Commands(d, t, n) :: op.cmd.StopContainer? ==> Replaced(d, t, n, op.cmd.name)
  }

  /** While the retiring step has not had its turn, nothing is stopped but what Replace clears. */
  lemma {:induction false} NoRetirementNoStops(d: Deploy, init: Values, attached: bool, t: seq<Turn>, n: nat)
    requires Plausible(d) && Lawful(|d.steps|, d.w, init, attached, t) && n <= |t|
    requires forall k :: 0 <= k < n ==> t[k].index != d.stop
    ensures StoppedOnlyReplaced(d, t, n)
    ensures !d.cfg.replaceExisting ==> NeverStops(Commands(d, t, n))
  {
    if n > 0 {
      NoRetirementNoStops(d, init, attached, t, n - 1);
      TurnMeans(d, init, attached, t, n - 1);
      forall op | op in Commands(d, t, n) && op.cmd.StopContainer? ensures Replaced(d, t, n, op.cmd.name) {
        if op in Commands(d, t, n - 1) {
          assert Replaced(d, t, n - 1, op.cmd.name);
        } else {
          assert op in OpsOf(d, t, n - 1);
        }
      }
    }
  }

  /** What ran at first still runs, names that Replace cleared aside. */
  ghost predicate PreviousUp(d: Deploy, t: seq<Turn>, n: nat, running: set<string>)
    requires n <= |t|
  {
    forall name <- running :: name in After(running, Commands(d, t, n)) || Replaced(d, t, n, name)
  }

  lemma PreviousStaysUp(d: Deploy, t: seq<Turn>, n: nat, running: set<string>)
    requires n <= |t| && StoppedOnlyReplaced(d, t, n)
    ensures PreviousUp(d, t, n, running)
  {
    forall name | name in running ensures name in After(running, Commands(d, t, n)) || Replaced(d, t, n, name) {
      if !Replaced(d, t, n, name) {
        SparedStaysUp(running, Commands(d, t, n), name);
      }
    }
  }

  /** From turn `k` on, all of `names` run. */
  ghost predicate UpFrom(d: Deploy, t: seq<Turn>, k: nat, names: seq<string>, running: set<string>) {
    forall m :: k <= m <= |t| ==> AllIn(names, After(running, Commands(d, t, m)))
  }

  /**
   * The handover: at every point of every run, either everything that was running at first is still
   * running, or a whole release was proved healthy before anything was stopped, and runs ever since.
   * Under Replace this leaves out names of the release itself.
   */
  lemma PreviousReleaseSurvives(d: Deploy, init: Values, attached: bool, t: seq<Turn>, n: nat, running: set<string>)
    requires Plausible(d) && Lawful(|d.steps|, d.w, init, attached, t) && n <= |t|
    ensures || PreviousUp(d, t, n, running)
            || exists k, q, names :: && 0 <= k < n && t[k].index == d.stop
                                     && StoppedOnlyReplaced(d, t, k) && PreviousUp(d, t, k, running)
                                     && SeesRelease(d, t, k, q, names) && ProvedHealthy(d, t, k, names)
                                     && UpFrom(d, t, k, names, running)
  {
    if k :| 0 <= k < n && t[k].index == d.stop {
      var first := FirstOf(t, d.stop, k);
      NoRetirementNoStops(d, init, attached, t, first);
      PreviousStaysUp(d, t, first, running);
      var q, names := ReleaseInSight(d, init, attached, t, first);
      HealthyBefore(d, init, attached, t, first, q, names);
      ReleaseStaysUp(d, init, attached, t, first, q, names, running);
    } else {
      NoRetirementNoStops(d, init, attached, t, n);
      PreviousStaysUp(d, t, n, running);
    }
  }

  /** Without Replace, that is everything that ran, and nothing at all was stopped before. */
  lemma PlainHandover(d: Deploy, t: seq<Turn>, n: nat, running: set<string>)
    requires n <= |t| && !d.cfg.replaceExisting
    ensures PreviousUp(d, t, n, running) <==> running <= After(running, Commands(d, t, n))
    ensures StoppedOnlyReplaced(d, t, n) <==> NeverStops(Commands(d, t, n))
  {
  }

  /** Once the release was started for the last time, no turn stops any of it. */
  lemma TurnSparesRelease(d: Deploy, init: Values, attached: bool, t: seq<Turn>, k: nat, q: nat, names: seq<string>,
                          j: nat, name: string)
    requires Plausible(d) && Lawful(|d.steps|, d.w, init, attached, t)
    requires k < |t| && t[k].index == d.stop && SeesRelease(d, t, k, q, names)
    requires q < j < |t| && name in names
    ensures Spares(OpsOf(d, t, j), name)
  {
    if j >= k {
      IndexClimbs(|d.steps|, d.w, init, attached, t, k, j);
    }
    assert t[j].index != d.start;
    TurnMeans(d, init, attached, t, j);
    if t[j].index == d.stop {
      var q', names' := ReleaseInSight(d, init, attached, t, j);
      if q' >= k {
        IndexClimbs(|d.steps|, d.w, init, attached, t, k, q');
      }
      assert q' == q;
    }
  }

  /** The release a retirement sees runs from the moment its start succeeded, to the end of the run. */
  lemma {:induction false} ReleaseRuns(d: Deploy, init: Values, attached: bool, t: seq<Turn>, k: nat, q: nat,
                                       names: seq<string>, running: set<string>, m: nat)
    requires Plausible(d) && Lawful(|d.steps|, d.w, init, attached, t)
    requires k < |t| && t[k].index == d.stop && SeesRelease(d, t, k, q, names)
    requires q < m <= |t|
    ensures AllIn(names, After(running, Commands(d, t, m)))
    decreases m
  {
    var before := After(running, Commands(d, t, m - 1));
    AfterInTwo(running, Commands(d, t, m - 1), OpsOf(d, t, m - 1));
    if m == q + 1 {
      TurnEffect(d, init, attached, t, q);
      StartMeans(d.cfg, t[q].before, t[q].after, t[q].failed, OpsOf(d, t, q));
      assert AllIn(names, After(before, OpsOf(d, t, q)));
    } else {
      ReleaseRuns(d, init, attached, t, k, q, names, running, m - 1);
      forall name | name in names ensures name in After(before, OpsOf(d, t, m - 1)) {
        TurnSparesRelease(d, init, attached, t, k, q, names, m - 1, name);
        SparedStaysUp(before, OpsOf(d, t, m - 1), name);
      }
    }
  }

  lemma ReleaseStaysUp(d: Deploy, init: Values, attached: bool, t: seq<Turn>, k: nat, q: nat, names: seq<string>,
                       running: set<string>)
    requires Plausible(d) && Lawful(|d.steps|, d.w, init, attached, t)
    requires k < |t| && t[k].index == d.stop && SeesRelease(d, t, k, q, names)
    ensures UpFrom(d, t, k, names, running)
  {
    forall m | k <= m <= |t| ensures AllIn(names, After(running, Commands(d, t, m))) {
      ReleaseRuns(d, init, attached, t, k, q, names, running, m);
    }
  }

  lemma {:induction false} FirstOf(t: seq<Turn>, i: nat, k: nat) returns (first: nat)
    requires k < |t| && t[k].index == i
    ensures first <= k && t[first].index == i && forall j :: 0 <= j < first ==> t[j].index != i
  {
    first := k;
    if j :| 0 <= j < k && t[j].index == i {
      first := FirstOf(t, i, j);
    }
  }

  /** The retiring step gets its turn only after the release it will keep proved healthy. */
  lemma HealthyBefore(d: Deploy, init: Values, attached: bool, t: seq<Turn>, k: nat, q: nat, names: seq<string>)
    requires Plausible(d) && Lawful(|d.steps|, d.w, init, attached, t)
    requires k < |t| && t[k].index == d.stop && SeesRelease(d, t, k, q, names)
    ensures ProvedHealthy(d, t, k, names)
  {
    var m := ExecutedBefore(|d.steps|, d.w, init, attached, t, k + 1, d.wait);
    NextTurn(|d.steps|, d.w, init, attached, t, m);
    TurnMeans(d, init, attached, t, m);
    StartsBeforeWaits(d, init, attached, t, q, m, k);
    var q', names' := ReleaseInSight(d, init, attached, t, m);
  }

  /** A step after turn `k` ran this name again. */
  ghost predicate StartedAgain(d: Deploy, t: seq<Turn>, k: nat, name: string) {
    exists j :: k < j < |t| && Op(RunContainer(name), true) in OpsOf(d, t, j)
  }

  lemma {:induction false} RetiredStaysDown(d: Deploy, t: seq<Turn>, k: nat, name: string, running: set<string>, m: nat)
    requires k < m <= |t| && name !in After(running, Commands(d, t, k + 1)) && !StartedAgain(d, t, k, name)
    ensures name !in After(running, Commands(d, t, m))
    decreases m
  {
    if m > k + 1 {
      RetiredStaysDown(d, t, k, name, running, m - 1);
      AfterInTwo(running, Commands(d, t, m - 1), OpsOf(d, t, m - 1));
      DownStaysDown(After(running, Commands(d, t, m - 1)), OpsOf(d, t, m - 1), name);
    }
  }

  /**
   * After a successful deploy the whole release runs, and of what the retiring step listed nothing
   * else does, unless a later step of the author's own ran it again.
   */
  lemma SuccessLeavesOnlyRelease(d: Deploy, init: Values, attached: bool, t: seq<Turn>, o: Outcome,
                                 running: set<string>)
    returns (k: nat, q: nat, names: seq<string>)
    requires Plausible(d) && Lawful(|d.steps|, d.w, init, attached, t)
    requires OutcomeFits(|d.steps|, d.w, init, t, o) && o.Success?
    ensures LastOf(t, |t|, d.stop, k) && !t[k].failed && SeesRelease(d, t, k, q, names)
    ensures d.listed(k, d.stop, t[k].before).Some?
    ensures AllIn(names, After(running, Commands(d, t, |t|)))
    ensures forall name <- d.listed(k, d.stop, t[k].before).value ::
              name in After(running, Commands(d, t, |t|)) ==> name in names || StartedAgain(d, t, k, name)
  {
    SuccessMeansEveryLastAttempt(|d.steps|, d.w, init, attached, t, o);
    assert LastAttemptSucceeded(t, d.stop);
    k :| LastOf(t, |t|, d.stop, k) && !t[k].failed;
    TurnMeans(d, init, attached, t, k);
    q, names := ReleaseInSight(d, init, attached, t, k);
    ReleaseRuns(d, init, attached, t, k, q, names, running, |t|);
    var ops, before := OpsOf(d, t, k), After(running, Commands(d, t, k));
    AfterInTwo(running, Commands(d, t, k), ops);
    forall name | name in d.listed(k, d.stop, t[k].before).value && name !in names && !StartedAgain(d, t, k, name)
      ensures name !in After(running, Commands(d, t, |t|))
    {
      StoppedStaysDown(before, ops, name);
      RetiredStaysDown(d, t, k, name, running, |t|);
    }
  }

  /** Once stopped, a container stays down while nothing is started. */
  lemma {:induction false} StoppedStaysDown(running: set<string>, ops: seq<Op>, name: string)
    requires forall op <- ops :: !op.cmd.RunContainer?
    requires Op(StopContainer(name), true) in ops
    ensures name !in After(running, ops)
  {
    var front, last := ops[..|ops| - 1], ops[|ops| - 1];
    if last != Op(StopContainer(name), true) {
      assert Op(StopContainer(name), true) in front;
      StoppedStaysDown(running, front, name);
    }
  }
}
