/** The value bag a pipeline threads from step to step (pipeline/state.go). */
module Bag {
  import opened Wrappers

  type Key = string

  /** A value some step stored. Values are immutable, so a shallow snapshot is a full one. */
  datatype Value = Text(text: string) | Names(names: seq<string>)

  type Values = map<Key, Value>

  datatype GetError = KeyMissing(key: Key) | KeyType(key: Key)

  /** `Get[string]`. */
  function GetText(values: Values, k: Key): Result<string, GetError> {
    if k !in values then Err(KeyMissing(k))
    else if !values[k].Text? then Err(KeyType(k))
    else Ok(values[k].text)
  }

  /** `Get[[]string]`. */
  function GetNames(values: Values, k: Key): Result<seq<string>, GetError> {
    if k !in values then Err(KeyMissing(k))
    else if !values[k].Names? then Err(KeyType(k))
    else Ok(values[k].names)
  }

  class State {
    var values: Values

    constructor ()
      ensures values == map[]
    {
      values := map[];
    }

    method Set(k: Key, v: Value)
      modifies this
      ensures values == old(values)[k := v]
    {
      values := values[k := v];
    }

    /** Copies the map entry by entry, so later writes to the bag cannot reach the snapshot. */
    method Snapshot() returns (snap: Values)
      ensures snap == values
    {
      snap := map[];
      var left := values.Keys;
      while left != {}
        invariant left <= values.Keys
        invariant snap.Keys == values.Keys - left
        invariant forall k <- snap :: snap[k] == values[k]
        decreases |left|
      {
        var k :| k in left;
        snap := snap[k := values[k]];
        left := left - {k};
      }
    }

    method Restore(snap: Values)
      modifies this
      ensures values == snap
    {
      values := snap;
    }
  }
}

/** The wiring check (`Pipeline.Validate`, pipeline/pipeline.go). */
module Wiring {
  import opened Wrappers
  import opened Bag

  /** What a step declares. `misconfigured` is its own `Validate` failing, if it has one. */
  datatype Step = Step(name: string, misconfigured: bool, needs: seq<Key>, gives: seq<Key>)

  datatype Fault =
    | NoSteps
    | StepConfig(index: nat)
    | NotWired(index: nat, key: Key)
    | DuplicateProvider(index: nat, key: Key, previous: string)

  ghost predicate ProvidedBefore(steps: seq<Step>, i: nat, k: Key)
    requires i <= |steps|
  {
    exists j :: 0 <= j < i && k in steps[j].gives
  }

  ghost predicate NeedsMet(steps: seq<Step>, i: nat)
    requires i < |steps|
  {
    forall a :: 0 <= a < |steps[i].needs| ==> ProvidedBefore(steps, i, steps[i].needs[a])
  }

  /** No earlier step, and no earlier entry of the same list, gives the `a`-th key of step `i`. */
  ghost predicate GivesFresh(steps: seq<Step>, i: nat, a: nat)
    requires i < |steps| && a < |steps[i].gives|
  {
    !ProvidedBefore(steps, i, steps[i].gives[a]) && steps[i].gives[a] !in steps[i].gives[..a]
  }

  ghost predicate FreshUpTo(steps: seq<Step>, i: nat, n: nat)
    requires i < |steps| && n <= |steps[i].gives|
  {
    forall a :: 0 <= a < n ==> GivesFresh(steps, i, a)
  }

  ghost predicate StepFits(steps: seq<Step>, i: nat)
    requires i < |steps|
  {
    && !steps[i].misconfigured
    && NeedsMet(steps, i)
    && FreshUpTo(steps, i, |steps[i].gives|)
  }

  ghost predicate PrefixFits(steps: seq<Step>, n: nat)
    requires n <= |steps|
  {
    forall i :: 0 <= i < n ==> StepFits(steps, i)
  }

  /** The pipeline can run: it has steps, they are configured, and the data always flows forward. */
  ghost predicate Wired(steps: seq<Step>) {
    |steps| > 0 && PrefixFits(steps, |steps|)
  }

  /** `f` is the earliest fault, in the order configuration, inputs, outputs within a step. */
  ghost predicate IsFirstFault(steps: seq<Step>, f: Fault) {
    match f
    case NoSteps => steps == []
    case StepConfig(i) => i < |steps| && PrefixFits(steps, i) && steps[i].misconfigured
    case NotWired(i, k) =>
      && i < |steps| && PrefixFits(steps, i) && !steps[i].misconfigured
      && exists a :: && 0 <= a < |steps[i].needs| && steps[i].needs[a] == k
                     && !ProvidedBefore(steps, i, k)
                     && forall b :: 0 <= b < a ==> ProvidedBefore(steps, i, steps[i].needs[b])
    case DuplicateProvider(i, k, previous) =>
      && i < |steps| && PrefixFits(steps, i) && !steps[i].misconfigured && NeedsMet(steps, i)
      && (exists a :: && 0 <= a < |steps[i].gives| && steps[i].gives[a] == k
                      && !GivesFresh(steps, i, a)
                      && forall b :: 0 <= b < a ==> GivesFresh(steps, i, b))
      && exists j :: 0 <= j <= i && k in steps[j].gives && steps[j].name == previous
  }

  /** What `providerOf` holds once the first `i` steps and `a` keys of step `i` are recorded. */
  ghost predicate Records(providerOf: map<Key, string>, steps: seq<Step>, i: nat, a: nat)
    requires i <= |steps| && (if i < |steps| then a <= |steps[i].gives| else a == 0)
  {
    && (forall k :: k in providerOf <==>
          ProvidedBefore(steps, i, k) || (i < |steps| && k in steps[i].gives[..a]))
    && (forall k <- providerOf ::
          exists j :: 0 <= j < |steps| && j <= i && k in steps[j].gives && steps[j].name == providerOf[k])
  }

  lemma RecordOne(providerOf: map<Key, string>, steps: seq<Step>, i: nat, a: nat)
    requires i < |steps| && a < |steps[i].gives| && Records(providerOf, steps, i, a)
    ensures Records(providerOf[steps[i].gives[a] := steps[i].name], steps, i, a + 1)
    ensures steps[i].gives[a] !in providerOf <==> GivesFresh(steps, i, a)
  {
    assert steps[i].gives[..a + 1] == steps[i].gives[..a] + [steps[i].gives[a]];
  }

  lemma RecordAll(providerOf: map<Key, string>, steps: seq<Step>, i: nat)
    requires i < |steps| && Records(providerOf, steps, i, |steps[i].gives|)
    ensures Records(providerOf, steps, i + 1, 0)
  {
    assert steps[i].gives[..|steps[i].gives|] == steps[i].gives;
    forall k ensures ProvidedBefore(steps, i + 1, k) <==> ProvidedBefore(steps, i, k) || k in steps[i].gives {
    }
  }

  lemma MissingNeed(steps: seq<Step>, i: nat, a: nat)
    requires i < |steps| && PrefixFits(steps, i) && !steps[i].misconfigured && a < |steps[i].needs|
    requires !ProvidedBefore(steps, i, steps[i].needs[a])
    requires forall b :: 0 <= b < a ==> ProvidedBefore(steps, i, steps[i].needs[b])
    ensures IsFirstFault(steps, NotWired(i, steps[i].needs[a])) && !Wired(steps)
  {
    assert !StepFits(steps, i);
  }

  lemma RepeatedGift(steps: seq<Step>, i: nat, a: nat, providerOf: map<Key, string>)
    requires i < |steps| && PrefixFits(steps, i) && !steps[i].misconfigured && NeedsMet(steps, i)
    requires a < |steps[i].gives| && Records(providerOf, steps, i, a) && steps[i].gives[a] in providerOf
    requires FreshUpTo(steps, i, a)
    ensures IsFirstFault(steps, DuplicateProvider(i, steps[i].gives[a], providerOf[steps[i].gives[a]])) && !Wired(steps)
  {
    RecordOne(providerOf, steps, i, a);
    assert !StepFits(steps, i);
  }

  lemma OneMoreFits(steps: seq<Step>, i: nat)
    requires i < |steps| && PrefixFits(steps, i) && !steps[i].misconfigured && NeedsMet(steps, i)
    requires FreshUpTo(steps, i, |steps[i].gives|)
    ensures PrefixFits(steps, i + 1)
  {
    assert StepFits(steps, i);
  }

  /** The first of a step's needs that nothing before it provides. */
  method CheckNeeds(steps: seq<Step>, i: nat, providerOf: map<Key, string>) returns (r: Option<Fault>)
    requires i < |steps| && PrefixFits(steps, i) && !steps[i].misconfigured && Records(providerOf, steps, i, 0)
    ensures r.None? ==> NeedsMet(steps, i)
    ensures r.Some? ==> IsFirstFault(steps, r.value) && !Wired(steps)
  {
    for a := 0 to |steps[i].needs|
      invariant forall b :: 0 <= b < a ==> ProvidedBefore(steps, i, steps[i].needs[b])
    {
      var need := steps[i].needs[a];
      if need !in providerOf {
        MissingNeed(steps, i, a);
        return Some(NotWired(i, need));
      }
    }
    return None;
  }

  /** Records what a step gives, unless a key of it is given already. */
  method RecordGives(steps: seq<Step>, i: nat, providerOf: map<Key, string>)
    returns (providerOf': map<Key, string>, r: Option<Fault>)
    requires i < |steps| && PrefixFits(steps, i) && !steps[i].misconfigured && NeedsMet(steps, i)
    requires Records(providerOf, steps, i, 0)
    ensures r.None? ==> PrefixFits(steps, i + 1) && Records(providerOf', steps, i + 1, 0)
    ensures r.Some? ==> IsFirstFault(steps, r.value) && !Wired(steps)
  {
    providerOf' := providerOf;
    for a := 0 to |steps[i].gives|
      invariant FreshUpTo(steps, i, a)
      invariant Records(providerOf', steps, i, a)
    {
      var key := steps[i].gives[a];
      if key in providerOf' {
        RepeatedGift(steps, i, a, providerOf');
        return providerOf', Some(DuplicateProvider(i, key, providerOf'[key]));
      }
      RecordOne(providerOf', steps, i, a);
      providerOf' := providerOf'[key := steps[i].name];
    }
    RecordAll(providerOf', steps, i);
    OneMoreFits(steps, i);
    return providerOf', None;
  }

  method Validate(steps: seq<Step>) returns (r: Option<Fault>)
    ensures r.None? <==> Wired(steps)
    ensures r.Some? ==> IsFirstFault(steps, r.value)
  {
    if |steps| == 0 {
      return Some(NoSteps);
    }
    var providerOf: map<Key, string> := map[];
    for i := 0 to |steps|
      invariant PrefixFits(steps, i)
      invariant Records(providerOf, steps, i, 0)
    {
      if steps[i].misconfigured {
        assert !StepFits(steps, i);
        return Some(StepConfig(i));
      }
      r := CheckNeeds(steps, i, providerOf);
      if r.Some? {
        return r;
      }
      providerOf, r := RecordGives(steps, i, providerOf);
      if r.Some? {
        return r;
      }
    }
    return None;
  }

  lemma NeverTwice(steps: seq<Step>, i: nat, j: nat, k: Key)
    requires i < j < |steps| && k in steps[i].gives && k in steps[j].gives
    ensures !Wired(steps)
  {
    var a :| 0 <= a < |steps[j].gives| && steps[j].gives[a] == k;
    assert ProvidedBefore(steps, j, k) && !GivesFresh(steps, j, a);
    assert !StepFits(steps, j);
  }

  /** A wired pipeline has exactly one provider for each key it gives. */
  lemma UniqueProvider(steps: seq<Step>, i: nat, j: nat, k: Key)
    requires Wired(steps) && i < |steps| && j < |steps|
    requires k in steps[i].gives && k in steps[j].gives
    ensures i == j
  {
    if i < j {
      NeverTwice(steps, i, j, k);
    } else if j < i {
      NeverTwice(steps, j, i, k);
    }
  }
}
