/**
 * From exported functions to a generated command dispatcher (cmd/lath/discover.go,
 * cmd/lath/generate.go): a small compiler, and the meaning it preserves.
 */
module Dispatcher {
  import opened Wrappers
  import opened Sorting

  // ----- Discovery -----

  datatype Signature = Plain | ReturnsError | CtxError | ArgsError | CtxArgsError

  /** An exported function of a supported shape, and the directory it was found in. */
  datatype Found = Found(func: string, namespace: string, sig: Signature)

  datatype Target = Target(func: string, namespace: string, command: string, sig: Signature)

  datatype DiscoverError =
    | NoTargets
    | DuplicateTarget(first: Target, second: Target)
    | NamespaceClash(namespaced: Target, root: Target)

  function LowerChar(c: char): char {
    if 'A' <= c <= 'Z' then 'a' + (c - 'A') else c
  }

  function Lower(s: string): (r: string)
    ensures |r| == |s|
    ensures forall i :: 0 <= i < |s| ==> r[i] == LowerChar(s[i])
    ensures forall i :: 0 <= i < |s| ==>
              if 'A' <= s[i] <= 'Z' then r[i] as int == s[i] as int + 32 else r[i] == s[i]
  {
    seq(|s|, i requires 0 <= i < |s| => LowerChar(s[i]))
  }

  lemma LowerTwice(s: string)
    ensures Lower(Lower(s)) == Lower(s)
  {
  }

  /** The dispatcher's own `lower`, over the bytes of its argument. */
  method LowerInPlace(b: array<char>)
    modifies b
    ensures b[..] == Lower(old(b[..]))
  {
    for i := 0 to b.Length
      invariant forall k :: 0 <= k < i ==> b[k] == LowerChar(old(b[k]))
      invariant forall k :: i <= k < b.Length ==> b[k] == old(b[k])
    {
      if 'A' <= b[i] <= 'Z' {
        b[i] := b[i] + ('a' - 'A');
      }
    }
  }

  const SEPARATOR: string := " "

  function AsTarget(f: Found): Target {
    var word := Lower(f.func);
    Target(f.func, f.namespace, if f.namespace == "" then word else f.namespace + SEPARATOR + word, f.sig)
  }

  function AsTargets(found: seq<Found>): seq<Target> {
    seq(|found|, i requires 0 <= i < |found| => AsTarget(found[i]))
  }

  ghost predicate ByCommand(ts: seq<Target>) {
    forall i, j :: 0 <= i < j < |ts| ==> AtMost(ts[i].command, ts[j].command)
  }

  ghost predicate DistinctCommands(ts: seq<Target>) {
    forall i, j :: 0 <= i < j < |ts| ==> ts[i].command != ts[j].command
  }

  ghost predicate NoClash(ts: seq<Target>) {
    forall r <- ts, t <- ts :: r.namespace == "" && t.namespace != "" ==> r.command != t.namespace
  }

  function CommandOf(t: Target): string {
    t.command
  }

  /** `sort.Slice` by command. */
  function SortTargets(ts: seq<Target>): seq<Target> {
    SortBy(CommandOf, ts)
  }

  lemma SortTargetsSorts(ts: seq<Target>)
    ensures ByCommand(SortTargets(ts)) && multiset(SortTargets(ts)) == multiset(ts)
  {
    SortBySorts(CommandOf, ts);
    var s := SortTargets(ts);
    forall i, j | 0 <= i < j < |s| ensures AtMost(s[i].command, s[j].command) {
      assert AtMost(CommandOf(s[i]), CommandOf(s[j]));
    }
  }

  /** In sorted order, equal commands would be neighbours. */
  lemma NeighboursSuffice(ts: seq<Target>)
    requires ByCommand(ts)
    requires forall i :: 1 <= i < |ts| ==> ts[i].command != ts[i - 1].command
    ensures DistinctCommands(ts)
  {
    forall i, j | 0 <= i < j < |ts| ensures ts[i].command != ts[j].command {
      if ts[i].command == ts[j].command {
        assert i == j - 1 || AtMost(ts[i].command, ts[j - 1].command);
        AtMostTotal(ts[j].command, ts[j - 1].command);
      }
    }
  }

  /** Targets a dispatcher can be generated for. */
  ghost predicate Accepted(ts: seq<Target>) {
    && DistinctCommands(ts) && NoClash(ts)
    && forall t <- ts :: exists f :: t == AsTarget(f)
  }

  lemma AllFromFound(found: seq<Found>, ts: seq<Target>)
    requires multiset(ts) == multiset(AsTargets(found))
    ensures forall t <- ts :: exists f :: t == AsTarget(f)
  {
    forall t | t in ts ensures exists f :: t == AsTarget(f) {
      assert t in multiset(ts) && t in AsTargets(found);
      var i :| 0 <= i < |found| && AsTargets(found)[i] == t;
      assert t == AsTarget(found[i]);
    }
  }

  /** `discover`, from the functions its parser found. */
  method Discover(found: seq<Found>) returns (r: Result<seq<Target>, DiscoverError>)
    ensures r == Err(NoTargets) <==> found == []
    ensures r.Ok? <==> found != [] && DistinctCommands(SortTargets(AsTargets(found)))
                       && NoClash(SortTargets(AsTargets(found)))
    ensures r.Ok? ==> Accepted(r.value) && ByCommand(r.value) && multiset(r.value) == multiset(AsTargets(found))
    ensures r.Err? && r.error.DuplicateTarget? <==> !DistinctCommands(SortTargets(AsTargets(found)))
    ensures r.Err? && r.error.DuplicateTarget? ==>
              && r.error.first in AsTargets(found) && r.error.second in AsTargets(found)
              && r.error.first.command == r.error.second.command
    ensures r.Err? && r.error.NamespaceClash? ==>
              && r.error.namespaced in AsTargets(found) && r.error.root in AsTargets(found)
              && r.error.root.namespace == "" && r.error.namespaced.namespace == r.error.root.command != ""
  {
    if |found| == 0 {
      return Err(NoTargets);
    }
    var targets := SortTargets(AsTargets(found));
    SortTargetsSorts(AsTargets(found));
    SameMembers(targets, AsTargets(found));
    var d := FirstDuplicate(targets);
    if d.Some? {
      return Err(DuplicateTarget(targets[d.value - 1], targets[d.value]));
    }
    var c := FirstClash(targets);
    if c.Some? {
      return Err(NamespaceClash(c.value.0, c.value.1));
    }
    AllFromFound(found, targets);
    return Ok(targets);
  }

  /** The scan for neighbours that share a command. */
  method FirstDuplicate(targets: seq<Target>) returns (r: Option<nat>)
    requires ByCommand(targets)
    ensures r.None? <==> DistinctCommands(targets)
    ensures r.Some? ==> 1 <= r.value < |targets| && targets[r.value - 1].command == targets[r.value].command
                        && forall k :: 1 <= k < r.value ==> targets[k].command != targets[k - 1].command
  {
    var i := 1;
    while i < |targets|
      invariant forall k :: 1 <= k < i && k < |targets| ==> targets[k].command != targets[k - 1].command
    {
      if targets[i].command == targets[i - 1].command {
        return Some(i);
      }
      i := i + 1;
    }
    NeighboursSuffice(targets);
    return None;
  }

  /** The scan for a namespace that is also a root command; the answer is (namespaced, root). */
  method FirstClash(targets: seq<Target>) returns (r: Option<(Target, Target)>)
    ensures r.None? <==> NoClash(targets)
    ensures r.Some? ==> && r.value.0 in targets && r.value.1 in targets && r.value.1.namespace == ""
                        && r.value.0.namespace == r.value.1.command && r.value.0.namespace != ""
  {
    var rootNames: map<string, Target> := map[];
    for i := 0 to |targets|
      invariant forall k :: 0 <= k < i && targets[k].namespace == "" ==> targets[k].command in rootNames
      invariant forall w <- rootNames :: && rootNames[w] in targets && rootNames[w].namespace == ""
                                         && rootNames[w].command == w
    {
      if targets[i].namespace == "" {
        rootNames := rootNames[targets[i].command := targets[i]];
      }
    }
    for i := 0 to |targets|
      invariant forall k :: 0 <= k < i && targets[k].namespace != "" ==> targets[k].namespace !in rootNames
    {
      if targets[i].namespace == "" {
        continue;
      }
      if targets[i].namespace in rootNames {
        assert targets[i] in targets;
        return Some((targets[i], rootNames[targets[i].namespace]));
      }
    }
    return None;
  }

  lemma SameMembers(a: seq<Target>, b: seq<Target>)
    requires multiset(a) == multiset(b)
    ensures forall t :: t in a <==> t in b
    ensures |a| == |b|
  {
    assert |multiset(a)| == |a| && |multiset(b)| == |b|;
    forall t ensures t in a <==> t in b {
      assert t in a <==> t in multiset(a);
      assert t in b <==> t in multiset(b);
    }
  }

  // ----- Import aliases -----

  predicate AlphaNumeric(c: char) {
    'a' <= c <= 'z' || 'A' <= c <= 'Z' || '0' <= c <= '9'
  }

  function AliasChar(c: char): char {
    if AlphaNumeric(c) then c else '_'
  }

  /** The qualifier a namespace's calls are generated with, rune by rune. */
  method NamespaceAlias(namespace: string) returns (alias: string)
    ensures alias == Alias(namespace)
  {
    alias := "ns_";
    for i := 0 to |namespace|
      invariant alias == "ns_" + Alias(namespace)[3..3 + i]
    {
      alias := alias + [AliasChar(namespace[i])];
    }
  }

  function Alias(namespace: string): (r: string)
    ensures |r| == 3 + |namespace| && r[..3] == "ns_"
    ensures forall i :: 0 <= i < |namespace| ==>
              var c := namespace[i];
              r[i + 3] == if 'a' <= c <= 'z' || 'A' <= c <= 'Z' || '0' <= c <= '9' then c else '_'
  {
    "ns_" + seq(|namespace|, i requires 0 <= i < |namespace| => AliasChar(namespace[i]))
  }

  /** Two namespaces are told apart in the generated file unless they differ only in odd characters. */
  lemma AliasesCollide(a: string, b: string)
    ensures Alias(a) == Alias(b) <==>
              && |a| == |b|
              && forall i :: 0 <= i < |a| ==> a[i] == b[i] || (AliasChar(a[i]) == '_' && AliasChar(b[i]) == '_')
  {
    if Alias(a) == Alias(b) {
      assert |Alias(a)| == |a| + 3 && |Alias(b)| == |b| + 3;
      forall i | 0 <= i < |a| ensures AliasChar(a[i]) == AliasChar(b[i]) {
        assert Alias(a)[i + 3] == AliasChar(a[i]) && Alias(b)[i + 3] == AliasChar(b[i]);
      }
    }
  }

  /** Two directories, told apart by their commands, whose calls are generated with one qualifier. */
  lemma DashAndUnderscoreCollide() returns (a: string, b: string)
    ensures a != b && Alias(a) == Alias(b)
  {
    a, b := "a-b", "a_b";
    AliasesCollide(a, b);
  }

  // ----- Generation -----

  /** A generated call: which function, whether it gets the context, and which arguments. */
  datatype Call = Call(namespace: string, func: string, ctx: bool, argsFrom: Option<nat>, assigns: bool)

  datatype Case = Case(word: string, call: Call)

  /** A namespace: the word it is called by, the qualifier its package is imported as, and its cases. */
  datatype Group = Group(name: string, alias: string, cases: seq<Case>)

  /** The nested switch: cases for the root targets, and a group for each namespace. */
  datatype Program = Program(roots: seq<Case>, groups: seq<Group>)

  /** `Signature.Statement`, given how many words the command takes. */
  function Statement(sig: Signature, namespace: string, func: string, argsFrom: nat): Call {
    match sig
    case Plain => Call(namespace, func, false, None, false)
    case ReturnsError => Call(namespace, func, false, None, true)
    case CtxError => Call(namespace, func, true, None, true)
    case ArgsError => Call(namespace, func, false, Some(argsFrom), true)
    case CtxArgsError => Call(namespace, func, true, Some(argsFrom), true)
  }

  function TrimPrefix(s: string, prefix: string): string {
    if prefix <= s then s[|prefix|..] else s
  }

  function CaseOf(t: Target): Case {
    if t.namespace == "" then Case(t.command, Statement(t.sig, "", t.func, 2))
    else Case(TrimPrefix(t.command, t.namespace + SEPARATOR), Statement(t.sig, t.namespace, t.func, 3))
  }

  /** The cases of the targets in namespace `ns`, in order; the root's when it is empty. */
  function CasesOf(ts: seq<Target>, ns: string): seq<Case> {
    if ts == [] then []
    else
      var t := ts[|ts| - 1];
      CasesOf(ts[..|ts| - 1], ns) + if t.namespace == ns then [CaseOf(t)] else []
  }

  /** The namespaces of the targets, in the order they first appear. */
  function Namespaces(ts: seq<Target>): seq<string> {
    if ts == [] then []
    else
      var t, names := ts[|ts| - 1], Namespaces(ts[..|ts| - 1]);
      if t.namespace == "" || t.namespace in names then names else names + [t.namespace]
  }

  function GroupsOf(ts: seq<Target>): seq<Group> {
    var names := Namespaces(ts);
    seq(|names|, i requires 0 <= i < |names| => Group(names[i], Alias(names[i]), CasesOf(ts, names[i])))
  }

  /** The switch for a list of targets. */
  function Compiled(ts: seq<Target>): Program {
    Program(CasesOf(ts, ""), GroupsOf(ts))
  }

  lemma OneMoreTarget(ts: seq<Target>, t: Target)
    ensures forall ns :: CasesOf(ts + [t], ns) == CasesOf(ts, ns) + if t.namespace == ns then [CaseOf(t)] else []
    ensures Namespaces(ts + [t]) ==
            Namespaces(ts) + if t.namespace == "" || t.namespace in Namespaces(ts) then [] else [t.namespace]
  {
    assert (ts + [t])[..|ts|] == ts;
  }

  /** The namespaces are listed once each, and are those of the targets. */
  lemma {:induction false} NamespacesAreExact(ts: seq<Target>)
    ensures NoRepeats(Namespaces(ts)) && "" !in Namespaces(ts)
    ensures forall ns :: ns in Namespaces(ts) <==> ns != "" && exists t :: t in ts && t.namespace == ns
  {
    if ts != [] {
      var front, last := ts[..|ts| - 1], ts[|ts| - 1];
      NamespacesAreExact(front);
      assert forall t :: t in ts <==> t in front || t == last;
    }
  }

  ghost predicate From(ts: seq<Target>, ns: string, c: Case) {
    exists t :: t in ts && t.namespace == ns && c == CaseOf(t)
  }

  lemma {:induction false} CasesAreExact(ts: seq<Target>, ns: string, c: Case)
    ensures c in CasesOf(ts, ns) <==> From(ts, ns, c)
  {
    if ts != [] {
      var front, last := ts[..|ts| - 1], ts[|ts| - 1];
      CasesAreExact(front, ns, c);
      assert forall t :: t in ts <==> t in front || t == last;
    }
  }

  /** No group of the generated switch is empty. */
  lemma GroupsAreInhabited(ts: seq<Target>, i: nat)
    requires i < |Namespaces(ts)|
    ensures Compiled(ts).groups[i].cases != []
  {
    NamespacesAreExact(ts);
    var ns := Namespaces(ts)[i];
    assert ns in Namespaces(ts);
    var t :| t in ts && t.namespace == ns;
    assert From(ts, ns, CaseOf(t));
    CasesAreExact(ts, ns, CaseOf(t));
  }

  /** `groupIndex` says where each group is. */
  ghost predicate Indexes(groupIndex: map<string, nat>, names: seq<string>) {
    && (forall ns <- groupIndex :: groupIndex[ns] < |names| && names[groupIndex[ns]] == ns)
    && (forall i :: 0 <= i < |names| ==> names[i] in groupIndex && groupIndex[names[i]] == i)
  }

  /** A namespace met for the first time has no cases yet. */
  lemma NewNamespace(ts: seq<Target>, ns: string)
    requires ns != "" && ns !in Namespaces(ts)
    ensures CasesOf(ts, ns) == []
  {
    NamespacesAreExact(ts);
    if CasesOf(ts, ns) != [] {
      CasesAreExact(ts, ns, CasesOf(ts, ns)[0]);
    }
  }

  /** A root target changes no group. */
  lemma GroupsKept(ts: seq<Target>, t: Target)
    requires t.namespace == ""
    ensures GroupsOf(ts + [t]) == GroupsOf(ts)
  {
    OneMoreTarget(ts, t);
    NamespacesAreExact(ts);
    forall k | 0 <= k < |Namespaces(ts)| ensures GroupsOf(ts + [t])[k] == GroupsOf(ts)[k] {
      assert Namespaces(ts)[k] in Namespaces(ts);
      assert CasesOf(ts, Namespaces(ts)[k]) + [] == CasesOf(ts, Namespaces(ts)[k]);
    }
  }

  /** A namespaced target changes its own group, which is new or not, and no other. */
  lemma GroupsGrow(ts: seq<Target>, t: Target, i: nat)
    requires t.namespace != "" && i < |Namespaces(ts + [t])| && Namespaces(ts + [t])[i] == t.namespace
    ensures |Namespaces(ts)| == |GroupsOf(ts)| <= |GroupsOf(ts + [t])|
    ensures forall k :: 0 <= k < |GroupsOf(ts)| && k != i ==> GroupsOf(ts + [t])[k] == GroupsOf(ts)[k]
    ensures GroupsOf(ts + [t])[i] == Group(t.namespace, Alias(t.namespace), CasesOf(ts, t.namespace) + [CaseOf(t)])
  {
    OneMoreTarget(ts, t);
    NamespacesAreExact(ts + [t]);
    forall k | 0 <= k < |GroupsOf(ts)| && k != i ensures GroupsOf(ts + [t])[k] == GroupsOf(ts)[k] {
      assert Namespaces(ts + [t])[k] == Namespaces(ts)[k] != t.namespace;
      assert CasesOf(ts, Namespaces(ts)[k]) + [] == CasesOf(ts, Namespaces(ts)[k]);
    }
  }

  /** Adds a namespaced target's case to its group, which it opens if need be. */
  method PlaceCase(t: Target, entry: Case, groups: seq<Group>, groupIndex: map<string, nat>, ghost seen: seq<Target>)
    returns (groups': seq<Group>, groupIndex': map<string, nat>)
    requires t.namespace != "" && entry == CaseOf(t)
    requires groups == GroupsOf(seen) && Indexes(groupIndex, Namespaces(seen))
    ensures groups' == GroupsOf(seen + [t]) && Indexes(groupIndex', Namespaces(seen + [t]))
  {
    OneMoreTarget(seen, t);
    groups', groupIndex' := groups, groupIndex;
    var i;
    if t.namespace !in groupIndex {
      NewNamespace(seen, t.namespace);
      var alias := NamespaceAlias(t.namespace);
      groups' := groups' + [Group(t.namespace, alias, [])];
      i := |groups'| - 1;
      groupIndex' := groupIndex'[t.namespace := i];
    } else {
      i := groupIndex[t.namespace];
    }
    GroupsGrow(seen, t, i);
    groups' := groups'[i := groups'[i].(cases := groups'[i].cases + [entry])];
  }

  /** The grouping loop of `generate`. */
  method Generate(targets: seq<Target>) returns (p: Program)
    ensures p == Compiled(targets)
  {
    var roots: seq<Case> := [];
    var groups: seq<Group> := [];
    var groupIndex: map<string, nat> := map[];
    for k := 0 to |targets|
      invariant roots == CasesOf(targets[..k], "")
      invariant groups == GroupsOf(targets[..k]) && Indexes(groupIndex, Namespaces(targets[..k]))
    {
      var t := targets[k];
      var argsFrom := 2;
      if t.namespace != "" {
        argsFrom := 3;
      }
      var call := Statement(t.sig, t.namespace, t.func, argsFrom);
      var word := t.command;
      if t.namespace != "" {
        word := TrimPrefix(t.command, t.namespace + SEPARATOR);
      }
      var entry := Case(word, call);
      ghost var seen := targets[..k];
      assert targets[..k + 1] == seen + [t];
      OneMoreTarget(seen, t);
      if t.namespace == "" {
        roots := roots + [entry];
        GroupsKept(seen, t);
        continue;
      }
      groups, groupIndex := PlaceCase(t, entry, groups, groupIndex, seen);
    }
    assert targets[..|targets|] == targets;
    p := Program(roots, groups);
  }

  // ----- Execution of the generated switch -----

  /** What the generated binary does: one call, the usage text, or a slice out of range. */
  datatype Effect =
    | Ran(namespace: string, func: string, ctx: bool, args: seq<string>, failureReported: bool)
    | Usage
    | Panicked

  function FindCase(cases: seq<Case>, word: string): (r: Option<Call>)
    ensures r.Some? ==> Case(word, r.value) in cases
    ensures r.None? ==> forall c <- cases :: c.word != word
  {
    if cases == [] then None
    else if cases[0].word == word then Some(cases[0].call)
    else FindCase(cases[1..], word)
  }

  function FindGroup(groups: seq<Group>, name: string): (r: Option<nat>)
    ensures r.Some? ==> r.value < |groups| && groups[r.value].name == name
    ensures r.None? ==> forall i :: 0 <= i < |groups| ==> groups[i].name != name
  {
    if groups == [] then None
    else if groups[0].name == name then Some(0)
    else
      match FindGroup(groups[1..], name)
      case Some(i) => Some(i + 1)
      case None => None
  }

  function Invoke(call: Call, argv: seq<string>): Effect
  {
    if call.argsFrom.Some? && call.argsFrom.value > |argv| then Panicked
    else Ran(call.namespace, call.func, call.ctx,
        if call.argsFrom.Some? then argv[call.argsFrom.value..] else [], call.assigns)
  }

  /** The generated `main`, on an argv that starts with the program's own name. */
  function Execute(p: Program, argv: seq<string>): Effect {
    if |argv| < 2 then Usage
    else
      match FindCase(p.roots, Lower(argv[1]))
      case Some(call) => Invoke(call, argv)
      case None =>
        match FindGroup(p.groups, Lower(argv[1]))
        case None => Usage
        case Some(g) =>
          if |argv| < 3 then Usage
          else
            match FindCase(p.groups[g].cases, Lower(argv[2]))
            case None => Usage
            case Some(call) => Invoke(call, argv)
  }

  // ----- What the author's commands mean -----

  /** The words at the head of `argv` name `t`, letter case aside. */
  predicate Names(t: Target, argv: seq<string>) {
    if t.namespace == "" then |argv| >= 2 && Lower(argv[1]) == Lower(t.func)
    else |argv| >= 3 && Lower(argv[1]) == t.namespace && Lower(argv[2]) == Lower(t.func)
  }

  /** Calling `t` as its signature asks, with everything after its command. */
  function Calling(t: Target, argv: seq<string>): Effect
    requires Names(t, argv)
  {
    var rest := argv[if t.namespace == "" then 2 else 3..];
    Ran(t.namespace, t.func, t.sig.CtxError? || t.sig.CtxArgsError?,
        if t.sig.ArgsError? || t.sig.CtxArgsError? then rest else [], !t.sig.Plain?)
  }

  lemma WordOf(t: Target)
    requires exists f :: t == AsTarget(f)
    ensures CaseOf(t).word == Lower(t.func)
    ensures t.command == if t.namespace == "" then Lower(t.func) else t.namespace + SEPARATOR + Lower(t.func)
  {
    var f :| t == AsTarget(f);
    var prefix := t.namespace + SEPARATOR;
    assert (prefix + Lower(t.func))[|prefix|..] == Lower(t.func);
  }

  lemma SameCommandSameTarget(ts: seq<Target>, t: Target, u: Target)
    requires DistinctCommands(ts) && t in ts && u in ts && t.command == u.command
    ensures t == u
  {
    var i :| 0 <= i < |ts| && ts[i] == t;
    var j :| 0 <= j < |ts| && ts[j] == u;
  }

  /** No argv names two accepted targets. */
  lemma NamesUnique(ts: seq<Target>, t: Target, u: Target, argv: seq<string>)
    requires Accepted(ts) && t in ts && u in ts && Names(t, argv) && Names(u, argv)
    ensures t == u
  {
    WordOf(t);
    WordOf(u);
    if t.namespace == u.namespace {
      SameCommandSameTarget(ts, t, u);
    }
  }

  /** The target a case for namespace `ns` was generated from. */
  lemma {:induction false} CaseOrigin(ts: seq<Target>, ns: string, w: string, call: Call) returns (u: Target)
    requires Accepted(ts) && Case(w, call) in CasesOf(ts, ns)
    ensures u in ts && u.namespace == ns && Case(w, call) == CaseOf(u) && Lower(u.func) == w
    ensures u.command == if ns == "" then w else ns + SEPARATOR + w
  {
    CasesAreExact(ts, ns, Case(w, call));
    u :| u in ts && u.namespace == ns && Case(w, call) == CaseOf(u);
    WordOf(u);
  }

  /** Looking up a target's word among the cases of its namespace finds its call. */
  lemma FindsCase(ts: seq<Target>, t: Target)
    requires Accepted(ts) && t in ts
    ensures FindCase(CasesOf(ts, t.namespace), Lower(t.func)) == Some(CaseOf(t).call)
  {
    WordOf(t);
    assert From(ts, t.namespace, CaseOf(t));
    CasesAreExact(ts, t.namespace, CaseOf(t));
    var r := FindCase(CasesOf(ts, t.namespace), Lower(t.func));
    var u := CaseOrigin(ts, t.namespace, Lower(t.func), r.value);
    SameCommandSameTarget(ts, t, u);
  }

  /** A namespace's word is no root command, and finds its group. */
  lemma {:induction false} FindsGroup(ts: seq<Target>, t: Target)
    requires Accepted(ts) && t in ts && t.namespace != ""
    ensures FindCase(CasesOf(ts, ""), t.namespace).None?
    ensures var g := FindGroup(GroupsOf(ts), t.namespace);
            g.Some? && GroupsOf(ts)[g.value].cases == CasesOf(ts, t.namespace)
  {
    var r := FindCase(CasesOf(ts, ""), t.namespace);
    if r.Some? {
      var u := CaseOrigin(ts, "", t.namespace, r.value);
    }
    NamespacesAreExact(ts);
    assert t.namespace in Namespaces(ts);
    var i :| 0 <= i < |Namespaces(ts)| && Namespaces(ts)[i] == t.namespace;
    assert GroupsOf(ts)[i].name == t.namespace;
  }

  /** A command the author defined runs that function, on exactly the arguments after the command. */
  lemma NamedTargetRuns(ts: seq<Target>, t: Target, argv: seq<string>)
    requires Accepted(ts) && t in ts && Names(t, argv)
    ensures Execute(Compiled(ts), argv) == Calling(t, argv)
  {
    FindsCase(ts, t);
    if t.namespace != "" {
      FindsGroup(ts, t);
    }
    InvokesAsAsked(t, argv);
  }

  lemma InvokesAsAsked(t: Target, argv: seq<string>)
    requires Names(t, argv)
    ensures Invoke(CaseOf(t).call, argv) == Calling(t, argv)
  {
  }

  /** Anything that names no target gets the usage text and runs nothing. */
  lemma UnnamedIsUsage(ts: seq<Target>, argv: seq<string>)
    requires Accepted(ts) && forall t <- ts :: !Names(t, argv)
    ensures Execute(Compiled(ts), argv) == Usage
  {
    if |argv| >= 2 {
      var w := Lower(argv[1]);
      var r := FindCase(CasesOf(ts, ""), w);
      var g := FindGroup(GroupsOf(ts), w);
      if r.Some? {
        var u := CaseOrigin(ts, "", w, r.value);
      } else if g.Some? && |argv| >= 3 {
        NamespacesAreExact(ts);
        assert w == Namespaces(ts)[g.value] && w in Namespaces(ts);
        var q := FindCase(CasesOf(ts, w), Lower(argv[2]));
        if q.Some? {
          var u := CaseOrigin(ts, w, Lower(argv[2]), q.value);
        }
      }
    }
  }

  /** The dispatcher runs `t` on an argv exactly when the argv names `t`. */
  lemma DispatchPreservesMeaning(ts: seq<Target>, t: Target, argv: seq<string>)
    requires Accepted(ts) && t in ts
    ensures var e := Execute(Compiled(ts), argv);
            Names(t, argv) <==> e.Ran? && e.namespace == t.namespace && Lower(e.func) == Lower(t.func)
    ensures Names(t, argv) ==> Execute(Compiled(ts), argv) == Calling(t, argv)
    ensures Execute(Compiled(ts), argv) == Usage <==> forall u <- ts :: !Names(u, argv)
  {
    if exists u :: u in ts && Names(u, argv) {
      var u :| u in ts && Names(u, argv);
      NamedTargetRuns(ts, u, argv);
      WordOf(t);
      WordOf(u);
      if u.namespace == t.namespace && Lower(u.func) == Lower(t.func) {
        SameCommandSameTarget(ts, t, u);
      } else if Names(t, argv) {
        NamesUnique(ts, t, u, argv);
      }
    } else {
      UnnamedIsUsage(ts, argv);
    }
  }

  /** The switch can be made to run `t`. */
  ghost predicate Reachable(ts: seq<Target>, t: Target) {
    exists argv ::
      var e := Execute(Compiled(ts), argv);
      e.Ran? && e.namespace == t.namespace && e.func == t.func
  }

  lemma NamedIsReachable(ts: seq<Target>, t: Target, argv: seq<string>)
    requires Accepted(ts) && t in ts && Names(t, argv)
    ensures Reachable(ts, t)
  {
    NamedTargetRuns(ts, t, argv);
    assert Execute(Compiled(ts), argv) == Calling(t, argv);
  }

  /** The switch can run a target exactly when its namespace is spelled in lower case, or it has none. */
  lemma ReachableIffLowerCase(ts: seq<Target>, t: Target)
    requires Accepted(ts) && t in ts
    ensures Reachable(ts, t) <==> t.namespace == "" || Lower(t.namespace) == t.namespace
  {
    if t.namespace == "" {
      NamedIsReachable(ts, t, ["lath", t.func]);
    } else if Lower(t.namespace) == t.namespace {
      NamedIsReachable(ts, t, ["lath", t.namespace, t.func]);
    } else if Reachable(ts, t) {
      var argv :|
        var e := Execute(Compiled(ts), argv);
        e.Ran? && e.namespace == t.namespace && e.func == t.func;
      DispatchPreservesMeaning(ts, t, argv);
      LowerTwice(argv[1]);
    }
  }

  /** A function in a directory with a capital is listed, and cannot be called. */
  lemma CapitalHidesTarget() returns (t: Target)
    ensures t == AsTarget(Found("Push", "Secrets", Plain)) && Accepted([t]) && !Reachable([t], t)
  {
    t := AsTarget(Found("Push", "Secrets", Plain));
    assert Accepted([t]);
    assert Lower(t.namespace)[0] == 's';
    ReachableIffLowerCase([t], t);
  }

  /** For words without spaces, naming a target is typing its command, letter case aside. */
  lemma NamesIsTheCommand(t: Target, argv: seq<string>)
    requires exists f :: t == AsTarget(f)
    requires ' ' !in t.func && ' ' !in t.namespace
    ensures Names(t, argv) <==>
              if t.namespace == "" then |argv| >= 2 && Lower(argv[1]) == t.command
              else |argv| >= 3 && Lower(argv[1]) + SEPARATOR + Lower(argv[2]) == t.command
  {
    WordOf(t);
    LowerSpaceFree(t.func);
    if t.namespace != "" && |argv| >= 3 && Lower(argv[1]) + SEPARATOR + Lower(argv[2]) == t.command {
      OneSpace(Lower(argv[1]), Lower(argv[2]), t.namespace, Lower(t.func));
    }
  }

  lemma LowerSpaceFree(s: string)
    requires ' ' !in s
    ensures ' ' !in Lower(s)
  {
    forall i | 0 <= i < |s| ensures Lower(s)[i] != ' ' {
      assert s[i] in s;
    }
  }

  lemma OneSpace(a: string, b: string, c: string, d: string)
    requires a + SEPARATOR + b == c + SEPARATOR + d && ' ' !in c && ' ' !in d
    ensures a == c && b == d
  {
    var s, t := a + SEPARATOR + b, c + SEPARATOR + d;
    forall j | 0 <= j < |t| && j != |c| ensures t[j] != ' ' {
      if j < |c| {
        assert t[j] == c[j] && c[j] in c;
      } else {
        assert t[j] == d[j - |c| - 1] && d[j - |c| - 1] in d;
      }
    }
    assert s[|a|] == ' ';
    assert s[..|a|] == a && t[..|c|] == c;
    assert s[|a| + 1..] == b && t[|c| + 1..] == d;
  }

  ghost predicate DistinctWords(cases: seq<Case>) {
    forall i, j :: 0 <= i < j < |cases| ==> cases[i].word != cases[j].word
  }

  lemma AcceptedFront(ts: seq<Target>)
    requires ts != [] && Accepted(ts)
    ensures Accepted(ts[..|ts| - 1])
  {
    var front := ts[..|ts| - 1];
    assert forall t <- front :: t in ts;
  }

  /** The cases for one namespace are worded apart. */
  lemma {:induction false} CasesAreDistinct(ts: seq<Target>, ns: string)
    requires Accepted(ts)
    ensures DistinctWords(CasesOf(ts, ns))
  {
    if ts != [] {
      var front, last := ts[..|ts| - 1], ts[|ts| - 1];
      AcceptedFront(ts);
      CasesAreDistinct(front, ns);
      if last.namespace == ns {
        forall i | 0 <= i < |CasesOf(front, ns)| ensures CasesOf(front, ns)[i].word != CaseOf(last).word {
          LastIsNew(ts, CasesOf(front, ns)[i]);
        }
      }
    }
  }

  lemma LastIsNew(ts: seq<Target>, c: Case)
    requires ts != [] && Accepted(ts) && c in CasesOf(ts[..|ts| - 1], ts[|ts| - 1].namespace)
    ensures c.word != CaseOf(ts[|ts| - 1]).word
  {
    var front, last := ts[..|ts| - 1], ts[|ts| - 1];
    AcceptedFront(ts);
    var u := CaseOrigin(front, last.namespace, c.word, c.call);
    var i :| 0 <= i < |front| && front[i] == u;
    assert ts[i].command != last.command && last in ts;
    WordOf(last);
  }

  /** No two cases of one switch statement of the generated file read alike. */
  lemma NoDuplicateCase(ts: seq<Target>)
    requires Accepted(ts)
    ensures DistinctWords(Compiled(ts).roots)
    ensures forall g <- Compiled(ts).groups :: DistinctWords(g.cases)
    ensures forall c <- Compiled(ts).roots, g <- Compiled(ts).groups :: c.word != g.name
    ensures var gs := Compiled(ts).groups; forall i, j :: 0 <= i < j < |gs| ==> gs[i].name != gs[j].name
  {
    NamespacesAreExact(ts);
    CasesAreDistinct(ts, "");
    forall g | g in Compiled(ts).groups ensures DistinctWords(g.cases) {
      CasesAreDistinct(ts, g.name);
    }
    forall c, g | c in Compiled(ts).roots && g in Compiled(ts).groups ensures c.word != g.name {
      var u := CaseOrigin(ts, "", c.word, c.call);
      var i :| 0 <= i < |GroupsOf(ts)| && GroupsOf(ts)[i] == g;
      assert g.name == Namespaces(ts)[i] && g.name in Namespaces(ts);
    }
  }

  /** No two packages are imported under one name, which the compiler would refuse. */
  ghost predicate ImportsDistinct(p: Program) {
    forall i, j :: 0 <= i < j < |p.groups| ==> p.groups[i].alias != p.groups[j].alias
  }

  /** No two namespaces of the definition share an alias. */
  ghost predicate AliasesApart(ts: seq<Target>) {
    forall t <- ts, u <- ts :: t.namespace != "" && u.namespace != "" && t.namespace != u.namespace ==>
                                 Alias(t.namespace) != Alias(u.namespace)
  }

  /** The generated file's imports are distinct exactly when no two namespaces share an alias. */
  lemma ImportsDistinctIff(ts: seq<Target>)
    ensures ImportsDistinct(Compiled(ts)) <==> AliasesApart(ts)
  {
    if ImportsDistinct(Compiled(ts)) {
      forall t, u | t in ts && u in ts && t.namespace != "" && u.namespace != "" && t.namespace != u.namespace
        ensures Alias(t.namespace) != Alias(u.namespace)
      {
        TwoNamespaces(ts, t, u);
      }
    } else {
      OneAliasTwice(ts);
    }
  }

  lemma TwoNamespaces(ts: seq<Target>, t: Target, u: Target)
    requires ImportsDistinct(Compiled(ts)) && t in ts && u in ts
    requires t.namespace != "" && u.namespace != "" && t.namespace != u.namespace
    ensures Alias(t.namespace) != Alias(u.namespace)
  {
    var i := NamespaceAt(ts, t);
    var j := NamespaceAt(ts, u);
    var gs := Compiled(ts).groups;
    assert gs[i].alias != gs[j].alias;
  }

  lemma NamespaceAt(ts: seq<Target>, t: Target) returns (i: nat)
    requires t in ts && t.namespace != ""
    ensures i < |Namespaces(ts)| && Namespaces(ts)[i] == t.namespace
  {
    NamespacesAreExact(ts);
    assert t.namespace in Namespaces(ts);
    i :| i < |Namespaces(ts)| && Namespaces(ts)[i] == t.namespace;
  }

  lemma OneAliasTwice(ts: seq<Target>)
    requires !ImportsDistinct(Compiled(ts))
    ensures !AliasesApart(ts)
  {
    NamespacesAreExact(ts);
    var names, gs := Namespaces(ts), Compiled(ts).groups;
    var i, j :| 0 <= i < j < |gs| && gs[i].alias == gs[j].alias;
    assert names[i] in names && names[j] in names && names[i] != names[j];
    var t :| t in ts && t.namespace == names[i];
    var u :| u in ts && u.namespace == names[j];
    assert Alias(t.namespace) == Alias(u.namespace);
  }

  lemma CommandTells(ts: seq<Target>)
    requires DistinctCommands(ts)
    ensures KeyTells(CommandOf, ts)
  {
    forall t, u | t in ts && u in ts && CommandOf(t) == CommandOf(u) ensures t == u {
      var i :| 0 <= i < |ts| && ts[i] == t;
      var j :| 0 <= j < |ts| && ts[j] == u;
      assert i == j;
    }
  }

  /** The generated file does not depend on the order in which the functions were found. */
  lemma {:induction false} GenerationIsStable(found: seq<Found>, found': seq<Found>)
    requires multiset(AsTargets(found)) == multiset(AsTargets(found'))
    requires DistinctCommands(SortTargets(AsTargets(found)))
    ensures Compiled(SortTargets(AsTargets(found))) == Compiled(SortTargets(AsTargets(found')))
  {
    SortBySorts(CommandOf, AsTargets(found));
    SortBySorts(CommandOf, AsTargets(found'));
    CommandTells(SortTargets(AsTargets(found)));
    SortedUnique(CommandOf, SortTargets(AsTargets(found)), SortTargets(AsTargets(found')));
  }
}
