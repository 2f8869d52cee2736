/** A deploy pipeline that meets every hypothesis of the handover theorems, and succeeds. */
module HandoverExample {
  import opened Wrappers
  import opened Bag
  import Wiring
  import opened Debugging
  import opened Engine
  import opened RunLaws
  import opened Handover

  /** Every command of a plan, done. */
  function AllDone(plan: seq<Command>): seq<Op> {
    if plan == [] then [] else [Op(plan[0], true)] + AllDone(plan[1..])
  }

  lemma {:induction false} AllDoneIsCarried(plan: seq<Command>, lenient: bool)
    ensures Carried(plan, AllDone(plan), false, lenient)
  {
    if plan != [] {
      AllDoneIsCarried(plan[1..], lenient);
    }
  }

  const OLD: seq<string> := ["old"]

  function Config(replace: bool): Start {
    Start([Process("web", 80, true, 2)], "app", replace)
  }

  /** Builds an image, starts it, waits for it, retires what came before. */
  function Steps(): seq<Wiring.Step> {
    [Wiring.Step("build", false, [], [KEY_IMAGE]),
     Wiring.Step("start", false, [KEY_IMAGE], [KEY_CONTAINERS, KEY_ROUTED]),
     Wiring.Step("wait", false, [KEY_CONTAINERS], []),
     Wiring.Step("stop", false, [KEY_CONTAINERS], [])]
  }

  /** What step `i` leaves in the bag when all goes well; it fails when its input is missing. */
  function Outcome(cfg: Start, i: nat, v: Values): Attempt {
    if i == 0 then Attempt(v[KEY_IMAGE := Text("image")], false)
    else if i == 1 then
      if GetText(v, KEY_IMAGE).Err? then Attempt(v, true)
      else Attempt(v[KEY_CONTAINERS := Names(Release(cfg, Commit(v)))][KEY_ROUTED := Names(Routed(cfg, Commit(v)))],
                   false)
    else Attempt(v, GetNames(v, KEY_CONTAINERS).Err?)
  }

  function Ops(cfg: Start, i: nat, v: Values): seq<Op> {
    if i == 1 && GetText(v, KEY_IMAGE).Ok? then AllDone(StartPlan(cfg, Release(cfg, Commit(v))))
    else
      match GetNames(v, KEY_CONTAINERS)
      case Err(_) => []
      case Ok(names) =>
        if i == 2 then AllDone(ProbePlan(names))
        else if i == 3 then AllDone(StopPlan(Stale(OLD, names)))
        else []
  }

  function Example(replace: bool): Deploy {
    var cfg := Config(replace);
    Deploy(Steps(), 1, 2, 3, cfg,
           World((n: nat, i: nat, v: Values) => Outcome(cfg, i, v), (n: nat) => false),
           (n: nat, i: nat, v: Values) => Ops(cfg, i, v),
           (n: nat, i: nat, v: Values) => Some(OLD), (n: nat, i: nat, v: Values) => false)
  }

  lemma StepsAreWired()
    ensures Wiring.Wired(Steps())
  {
    var steps := Steps();
    assert KEY_IMAGE in steps[0].gives && KEY_CONTAINERS in steps[1].gives;
    assert KEY_CONTAINERS != KEY_ROUTED && KEY_IMAGE != KEY_CONTAINERS && KEY_IMAGE != KEY_ROUTED;
    assert Wiring.ProvidedBefore(steps, 1, KEY_IMAGE);
    assert Wiring.ProvidedBefore(steps, 2, KEY_CONTAINERS) && Wiring.ProvidedBefore(steps, 3, KEY_CONTAINERS);
    forall i | 0 <= i < 4 ensures Wiring.StepFits(steps, i) {
      forall a | 0 <= a < |steps[i].gives| ensures Wiring.GivesFresh(steps, i, a) {
      }
    }
  }

  lemma EffectsFit(replace: bool, i: nat, v: Values)
    requires i < 4
    ensures var cfg := Config(replace);
            Effect(Example(replace), i, v, Outcome(cfg, i, v), Ops(cfg, i, v), Some(OLD), false)
  {
    var cfg := Config(replace);
    if i == 1 {
      AllDoneIsCarried(StartPlan(cfg, Release(cfg, Commit(v))), true);
    } else if i >= 2 && GetNames(v, KEY_CONTAINERS).Ok? {
      var names := GetNames(v, KEY_CONTAINERS).value;
      AllDoneIsCarried(ProbePlan(names), false);
      AllDoneIsCarried(StopPlan(Stale(OLD, names)), false);
    }
  }

  lemma OutcomesAreHonest(replace: bool, i: nat, v: Values)
    requires i < 4 && !Outcome(Config(replace), i, v).failed
    ensures SetsExactly(Steps()[i].gives, v, Outcome(Config(replace), i, v).after)
  {
  }

  /** The handover theorems speak of something, with Replace and without. */
  lemma {:induction false} ExampleIsPlausible(replace: bool)
    ensures Plausible(Example(replace)) && Example(replace).cfg.replaceExisting == replace
  {
    var d := Example(replace);
    StepsAreWired();
    forall n: nat, i: nat, v | i < |d.steps|
      ensures Effect(d, i, v, d.w.attempt(n, i, v), d.ops(n, i, v), d.listed(n, i, v), d.cut(n, i, v))
    {
      EffectsFit(replace, i, v);
    }
    forall n: nat, i: nat, v | i < |d.steps| && !d.w.attempt(n, i, v).failed
      ensures SetsExactly(d.steps[i].gives, v, d.w.attempt(n, i, v).after)
    {
      OutcomesAreHonest(replace, i, v);
    }
    assert Honours(d.steps, d.w);
    assert StartValid(d.cfg);
    assert KEY_CONTAINERS in d.steps[d.start].gives;
  }

  lemma ExampleTurnSucceeds(replace: bool, init: Values, t: seq<Turn>, k: nat)
    requires Lawful(4, Example(replace).w, init, false, t) && k < |t|
    ensures !t[k].failed
  {
    var d := Example(replace);
    ExampleIsPlausible(replace);
    assert TurnLaw(4, d.w, init, false, t, k);
    if t[k].index == 1 {
      Provenance(d.steps, d.w, init, false, t, k, 0, KEY_IMAGE);
      var q: nat :| && LastOf(t, k, 0, q) && !t[q].failed && KEY_IMAGE in t[q].after && KEY_IMAGE in t[k].before
                    && t[k].before[KEY_IMAGE] == t[q].after[KEY_IMAGE];
      assert TurnLaw(4, d.w, init, false, t, q);
    } else if t[k].index > 1 {
      var q, names := ReleaseInSight(d, init, false, t, k);
    }
  }

  /** And a run of it returns nil. */
  lemma ExampleSucceeds(replace: bool, init: Values)
    ensures RunFrom(4, Example(replace).w, Engine.Start(init, Off)).0.Success?
  {
    var w := Example(replace).w;
    RunsAreLawful(4, w, init, Off);
    var t := RunFrom(4, w, Engine.Start(init, Off)).1.trace;
    if t != [] {
      ExampleTurnSucceeds(replace, init, t, |t| - 1);
      assert TurnLaw(4, w, init, false, t, |t| - 1);
    }
  }
}
