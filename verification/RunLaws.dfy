/** What every run of the step loop satisfies, whatever the steps, the context and the operator do. */
module RunLaws {
  import opened Wrappers
  import opened Bag
  import Wiring
  import opened Debugging
  import opened Engine

  // ----- The shape of a run -----

  predicate Retried(u: Turn) {
    u.answer == Some(Act(Rerun))
  }

  predicate Passed(u: Turn) {
    !u.failed && (u.answer.None? || u.answer.value in {Act(Next), Act(Continue)})
  }

  /** After turn `u` the loop goes on with step `i` on bag `values`. */
  predicate Resumes(u: Turn, i: nat, values: Values) {
    || (Retried(u) && i == u.index && values == u.before)
    || (Passed(u) && i == u.index + 1 && values == u.after)
  }

  ghost predicate Continued(t: seq<Turn>) {
    exists k :: 0 <= k < |t| && t[k].answer == Some(Act(Continue))
  }

  /** A turn pauses after every failure, and after a success only while stepping and not at the end. */
  ghost predicate PauseLaw(total: nat, attached: bool, t: seq<Turn>, k: nat)
    requires k < |t|
  {
    t[k].answer.Some? <==>
      attached && (t[k].failed || (t[k].index + 1 != total && !Continued(t[..k])))
  }

  ghost predicate TurnLaw(total: nat, w: World, init: Values, attached: bool, t: seq<Turn>, k: nat)
    requires k < |t|
  {
    && t[k].index < total
    && !w.cancelled(k)
    && w.attempt(k, t[k].index, t[k].before) == Attempt(t[k].after, t[k].failed)
    && PauseLaw(total, attached, t, k)
    && if k == 0 then t[0].index == 0 && t[0].before == init
       else Resumes(t[k - 1], t[k].index, t[k].before)
  }

  ghost predicate Lawful(total: nat, w: World, init: Values, attached: bool, t: seq<Turn>) {
    forall k :: 0 <= k < |t| ==> TurnLaw(total, w, init, attached, t, k)
  }

  /** Where the loop stands after `t`. */
  ghost predicate Reached(init: Values, t: seq<Turn>, i: nat, values: Values) {
    if t == [] then i == 0 && values == init else Resumes(t[|t| - 1], i, values)
  }

  /** `o` is the outcome the last turn of `t`, or the poll after it, calls for. */
  ghost predicate OutcomeFits(total: nat, w: World, init: Values, t: seq<Turn>, o: Outcome) {
    match o
    case Success => exists values :: Reached(init, t, total, values)
    case Cancelled(i) => i < total && w.cancelled(|t|) && exists values :: Reached(init, t, i, values)
    case StepFailed(i) =>
      && t != [] && t[|t| - 1].index == i && t[|t| - 1].failed
      && (t[|t| - 1].answer.None? || t[|t| - 1].answer.value in {Act(Next), Act(Continue), Act(Quit)})
    case Abandoned(i) =>
      t != [] && t[|t| - 1].index == i && !t[|t| - 1].failed && t[|t| - 1].answer == Some(Act(Quit))
    case DebuggerLost(i) => t != [] && t[|t| - 1].index == i && t[|t| - 1].answer == Some(Lost)
    case BadAction(i) =>
      && t != [] && t[|t| - 1].index == i && t[|t| - 1].answer.Some?
      && t[|t| - 1].answer.value.Act? && t[|t| - 1].answer.value.action.Unknown?
  }

  /**
   * The bag a run leaves: where the loop stood, when it ended between two executions; what the last
   * execution left, failed or not, when it ended right after one.
   */
  ghost predicate LeavesBag(total: nat, init: Values, t: seq<Turn>, o: Outcome, values: Values) {
    match o
    case Success => Reached(init, t, total, values)
    case Cancelled(i) => Reached(init, t, i, values)
    case _ => t != [] && values == t[|t| - 1].after
  }

  ghost predicate Sound(total: nat, w: World, init: Values, attached: bool, m: Machine) {
    && Lawful(total, w, init, attached, m.trace)
    && Reached(init, m.trace, m.i, m.values)
    && (m.pauseOnSuccess <==> !Continued(m.trace))
    && (m.chan.Off? <==> !attached)
  }

  lemma ContinuedGrows(t: seq<Turn>, u: Turn)
    ensures Continued(t + [u]) <==> Continued(t) || u.answer == Some(Act(Continue))
  {
    var t' := t + [u];
    if u.answer == Some(Act(Continue)) {
      assert t'[|t|].answer == Some(Act(Continue));
    } else if Continued(t) {
      var k :| 0 <= k < |t| && t[k].answer == Some(Act(Continue));
      assert t'[k].answer == Some(Act(Continue));
    }
  }

  /** A lawful trace stays lawful when a turn that obeys the law is added. */
  lemma LawfulGrows(total: nat, w: World, init: Values, attached: bool, t: seq<Turn>, u: Turn)
    requires Lawful(total, w, init, attached, t) && u.index < total
    requires !w.cancelled(|t|) && w.attempt(|t|, u.index, u.before) == Attempt(u.after, u.failed)
    requires Reached(init, t, u.index, u.before)
    requires u.answer.Some? <==> attached && (u.failed || (u.index + 1 != total && !Continued(t)))
    ensures Lawful(total, w, init, attached, t + [u])
  {
    var t' := t + [u];
    forall k | 0 <= k < |t'| ensures TurnLaw(total, w, init, attached, t', k) {
      if k < |t| {
        assert t'[..k] == t[..k];
        assert TurnLaw(total, w, init, attached, t, k);
      } else {
        assert t'[..k] == t;
      }
    }
  }

  /** An execution obeys the turn laws, from wherever the loop stands. */
  lemma ExecuteLawful(total: nat, w: World, init: Values, attached: bool, m: Machine)
    requires m.i < total && Sound(total, w, init, attached, m) && !w.cancelled(|m.trace|)
    ensures var (u, chan) := Execute(total, w, m);
            && Lawful(total, w, init, attached, m.trace + [u])
            && (Continued(m.trace + [u]) <==> Continued(m.trace) || u.answer == Some(Act(Continue)))
            && (chan.Off? <==> !attached)
  {
    var u := Execute(total, w, m).0;
    LawfulGrows(total, w, init, attached, m.trace, u);
    ContinuedGrows(m.trace, u);
  }

  /** What the loop decides after a lawful execution keeps it sound, or is the outcome called for. */
  lemma DecideFits(total: nat, w: World, init: Values, attached: bool, t: seq<Turn>, u: Turn, m: Machine)
    requires Lawful(total, w, init, attached, t + [u]) && m.trace == t + [u]
    requires m.i == u.index < total && m.values == u.after && (m.chan.Off? <==> !attached)
    requires m.pauseOnSuccess <==> !Continued(t)
    requires Continued(t + [u]) <==> Continued(t) || u.answer == Some(Act(Continue))
    ensures var r := Decide(u, m);
            && (r.Go? ==> Sound(total, w, init, attached, r.m))
            && (r.Halt? ==> && !r.outcome.Success? && OutcomeFits(total, w, init, r.m.trace, r.outcome)
                            && LeavesBag(total, init, r.m.trace, r.outcome, r.m.values))
  {
    assert m.trace[|m.trace| - 1] == u;
  }

  lemma AdvanceSound(total: nat, w: World, init: Values, attached: bool, m: Machine)
    requires m.i < total && Sound(total, w, init, attached, m)
    ensures var r := Advance(total, w, m);
            && Lawful(total, w, init, attached, r.m.trace)
            && (r.Go? ==> Sound(total, w, init, attached, r.m))
            && (r.Halt? ==> && !r.outcome.Success? && OutcomeFits(total, w, init, r.m.trace, r.outcome)
                            && LeavesBag(total, init, r.m.trace, r.outcome, r.m.values))
  {
    var r := Advance(total, w, m);
    if w.cancelled(|m.trace|) {
      assert Reached(init, m.trace, m.i, m.values);
    } else {
      ExecuteLawful(total, w, init, attached, m);
      var (u, chan) := Execute(total, w, m);
      DecideFits(total, w, init, attached, m.trace, u, m.(values := u.after, chan := chan, trace := m.trace + [u]));
    }
  }

  lemma {:induction false} RunFromLawful(total: nat, w: World, init: Values, attached: bool, m: Machine)
    requires m.i <= total && Sound(total, w, init, attached, m)
    ensures var (o, f) := RunFrom(total, w, m);
            && Lawful(total, w, init, attached, f.trace)
            && OutcomeFits(total, w, init, f.trace, o)
            && LeavesBag(total, init, f.trace, o, f.values)
    decreases Remaining(m.chan), total - m.i
  {
    if m.i < total {
      AdvanceSound(total, w, init, attached, m);
      var r := Advance(total, w, m);
      if r.Go? {
        RunFromLawful(total, w, init, attached, r.m);
      }
    }
  }

  /** Every run obeys the turn laws; its result and its bag are those its last turn calls for. */
  lemma RunsAreLawful(total: nat, w: World, init: Values, chan: Channel)
    ensures var (o, m) := RunFrom(total, w, Start(init, chan));
            && Lawful(total, w, init, !chan.Off?, m.trace)
            && OutcomeFits(total, w, init, m.trace, o)
            && LeavesBag(total, init, m.trace, o, m.values)
  {
    RunFromLawful(total, w, init, !chan.Off?, Start(init, chan));
  }

  // ----- Moves and outcomes -----

  /** The executed index never goes back, and never skips a step. */
  lemma {:induction false} IndexClimbs(total: nat, w: World, init: Values, attached: bool, t: seq<Turn>, a: nat, b: nat)
    requires Lawful(total, w, init, attached, t) && a <= b < |t|
    ensures t[a].index <= t[b].index <= t[a].index + (b - a)
    decreases b
  {
    if a < b {
      IndexClimbs(total, w, init, attached, t, a, b - 1);
      assert TurnLaw(total, w, init, attached, t, b);
    }
  }

  /** The same index runs twice only on an accepted rerun; the next one starts only after a success. */
  lemma NextTurn(total: nat, w: World, init: Values, attached: bool, t: seq<Turn>, k: nat)
    requires Lawful(total, w, init, attached, t) && k + 1 < |t|
    ensures t[k + 1].index == t[k].index <==> Retried(t[k])
    ensures t[k + 1].index == t[k].index + 1 <==> Passed(t[k])
    ensures t[k].failed ==> Retried(t[k])
    ensures t[k + 1].before == if Retried(t[k]) then t[k].before else t[k].after
  {
    assert TurnLaw(total, w, init, attached, t, k + 1);
  }

  /** Turn `k` is the last execution of step `i` before turn `end`. */
  ghost predicate LastOf(t: seq<Turn>, end: nat, i: nat, k: nat)
    requires end <= |t|
  {
    k < end && t[k].index == i && forall j :: k < j < end ==> t[j].index != i
  }

  lemma {:induction false} ExecutedBefore(total: nat, w: World, init: Values, attached: bool, t: seq<Turn>, end: nat,
                                          i: nat)
    returns (k: nat)
    requires Lawful(total, w, init, attached, t)
    requires 0 < end <= |t| && i <= t[end - 1].index
    ensures LastOf(t, end, i, k)
    decreases end
  {
    if t[end - 1].index == i {
      k := end - 1;
    } else {
      assert TurnLaw(total, w, init, attached, t, end - 1);
      k := ExecutedBefore(total, w, init, attached, t, end - 1, i);
    }
  }

  ghost predicate LastAttemptSucceeded(t: seq<Turn>, i: nat) {
    exists k: nat :: LastOf(t, |t|, i, k) && !t[k].failed
  }

  /** A run returns nil exactly when every step's last execution succeeded. */
  lemma SuccessMeansEveryLastAttempt(total: nat, w: World, init: Values, attached: bool, t: seq<Turn>, o: Outcome)
    requires Lawful(total, w, init, attached, t) && OutcomeFits(total, w, init, t, o)
    ensures o.Success? <==> forall i :: 0 <= i < total ==> LastAttemptSucceeded(t, i)
  {
    if o.Success? {
      forall i | 0 <= i < total ensures LastAttemptSucceeded(t, i) {
        assert t != [];
        var k := ExecutedBefore(total, w, init, attached, t, |t|, i);
        if k + 1 < |t| {
          NextTurn(total, w, init, attached, t, k);
        }
      }
    } else if forall i :: 0 <= i < total ==> LastAttemptSucceeded(t, i) {
      LastIndexSucceeded(total, w, init, attached, t, o);
    }
  }

  /** Only a nil result can follow a successful last execution of the last step. */
  lemma LastIndexSucceeded(total: nat, w: World, init: Values, attached: bool, t: seq<Turn>, o: Outcome)
    requires Lawful(total, w, init, attached, t) && OutcomeFits(total, w, init, t, o)
    requires forall i :: 0 <= i < total ==> LastAttemptSucceeded(t, i)
    ensures o.Success?
  {
    if total == 0 {
      if t != [] {
        assert TurnLaw(total, w, init, attached, t, 0);
      }
    } else {
      assert LastAttemptSucceeded(t, total - 1);
      var k: nat :| LastOf(t, |t|, total - 1, k) && !t[k].failed;
      IndexClimbs(total, w, init, attached, t, k, |t| - 1);
      assert TurnLaw(total, w, init, attached, t, |t| - 1);
      assert k == |t| - 1;
    }
  }

  // ----- Replays -----

  /** On success, step `i` turns the bag it sees into `f(i, bag)`; failures may leave anything. */
  ghost predicate Functional(total: nat, w: World, f: (nat, Values) -> Values) {
    forall n: nat, i: nat, v {:trigger w.attempt(n, i, v)} ::
      i < total && !w.attempt(n, i, v).failed ==> w.attempt(n, i, v).after == f(i, v)
  }

  /** The bag before step `i` when the earlier ones each ran once, successfully. */
  function Compose(f: (nat, Values) -> Values, i: nat, init: Values): Values {
    if i == 0 then init else f(i - 1, Compose(f, i - 1, init))
  }

  /** However often a step is replayed, each of its executions starts from the same bag. */
  lemma {:induction false} SameStart(total: nat, w: World, init: Values, attached: bool, t: seq<Turn>, a: nat, b: nat)
    requires Lawful(total, w, init, attached, t) && a <= b < |t| && t[a].index == t[b].index
    ensures t[a].before == t[b].before
    ensures forall k :: a <= k < b ==> Retried(t[k])
    decreases b
  {
    if a < b {
      IndexClimbs(total, w, init, attached, t, a, b - 1);
      NextTurn(total, w, init, attached, t, b - 1);
      assert TurnLaw(total, w, init, attached, t, b);
      SameStart(total, w, init, attached, t, a, b - 1);
    }
  }

  /** When successes are functions of the bag, that bag is what the earlier steps compose to. */
  lemma {:induction false} StartsFromComposition(total: nat, w: World, init: Values, attached: bool, t: seq<Turn>,
                                                 f: (nat, Values) -> Values, k: nat)
    requires Lawful(total, w, init, attached, t) && Functional(total, w, f) && k < |t|
    ensures t[k].before == Compose(f, t[k].index, init)
    decreases k
  {
    assert TurnLaw(total, w, init, attached, t, k);
    if k > 0 {
      StartsFromComposition(total, w, init, attached, t, f, k - 1);
      assert TurnLaw(total, w, init, attached, t, k - 1);
    }
  }

  /** A debugged run that returns nil computes the plain composition of its steps. */
  lemma ReplaysPreserveMeaning(total: nat, w: World, init: Values, chan: Channel, f: (nat, Values) -> Values)
    requires Functional(total, w, f)
    ensures var (o, m) := RunFrom(total, w, Start(init, chan));
            o.Success? ==> m.values == Compose(f, total, init)
  {
    RunsAreLawful(total, w, init, chan);
    var (o, m) := RunFrom(total, w, Start(init, chan));
    if o.Success? && m.trace != [] {
      var k := |m.trace| - 1;
      StartsFromComposition(total, w, init, !chan.Off?, m.trace, f, k);
      assert TurnLaw(total, w, init, !chan.Off?, m.trace, k);
    }
  }

  /** Two runs of the same steps that both return nil agree, debugged or not, replayed or not. */
  lemma DebuggedEqualsPlain(total: nat, debugged: World, plain: World, init: Values, chan: Channel,
                            f: (nat, Values) -> Values)
    requires Functional(total, debugged, f) && Functional(total, plain, f)
    ensures var (o, m) := RunFrom(total, debugged, Start(init, chan));
            var (o', m') := RunFrom(total, plain, Start(init, Off));
            o.Success? && o'.Success? ==> m.values == m'.values
  {
    ReplaysPreserveMeaning(total, debugged, init, chan, f);
    ReplaysPreserveMeaning(total, plain, init, Off, f);
  }

  /** Without a debugger nothing is replayed: the `k`-th execution is of step `k`, and all but the last succeed. */
  lemma {:induction false} PlainIndex(total: nat, w: World, init: Values, t: seq<Turn>, k: nat)
    requires Lawful(total, w, init, false, t) && k < |t|
    ensures t[k].index == k && t[k].answer.None?
    decreases k
  {
    assert TurnLaw(total, w, init, false, t, k);
    if k > 0 {
      PlainIndex(total, w, init, t, k - 1);
    }
  }

  /** Without a debugger, a run returns nil exactly when what it executes succeeds and the context lets it end. */
  lemma PlainRunSucceeds(total: nat, w: World, init: Values)
    ensures var (o, m) := RunFrom(total, w, Start(init, Off));
            o.Success? <==> (forall u <- m.trace :: !u.failed) && (|m.trace| == total || !w.cancelled(|m.trace|))
  {
    RunsAreLawful(total, w, init, Off);
    var (o, m) := RunFrom(total, w, Start(init, Off));
    var t := m.trace;
    forall k | 0 <= k < |t| ensures t[k].index == k && t[k].answer.None? {
      PlainIndex(total, w, init, t, k);
    }
    if t != [] {
      assert TurnLaw(total, w, init, false, t, |t| - 1);
    }
    if o.Success? {
      forall k | 0 <= k < |t| ensures !t[k].failed {
        if k + 1 < |t| {
          NextTurn(total, w, init, false, t, k);
        }
      }
    }
  }

  // ----- Provenance -----

  ghost predicate SameEntry(a: Values, b: Values, k: Key) {
    (k in a <==> k in b) && (k in a && k in b ==> a[k] == b[k])
  }

  /** The contract of `Step`: a successful execution sets the keys the step gives, and no others. */
  ghost predicate Honours(steps: seq<Wiring.Step>, w: World) {
    forall n: nat, i: nat, v {:trigger w.attempt(n, i, v)} ::
      i < |steps| && !w.attempt(n, i, v).failed ==> SetsExactly(steps[i].gives, v, w.attempt(n, i, v).after)
  }

  ghost predicate SetsExactly(gives: seq<Key>, before: Values, after: Values) {
    && (forall k <- gives :: k in after)
    && (forall k :: k !in gives ==> SameEntry(before, after, k))
  }

  /** Turn `k` sees under `key` what the last execution of step `j` before it wrote. */
  ghost predicate SeesWriteOf(t: seq<Turn>, k: nat, j: nat, key: Key)
    requires k < |t|
  {
    exists q: nat :: && LastOf(t, k, j, q) && !t[q].failed
                && key in t[q].after && key in t[k].before && t[k].before[key] == t[q].after[key]
  }

  /** A key an earlier step gives holds, at every execution, that step's latest successful write. */
  lemma {:induction false} Provenance(steps: seq<Wiring.Step>, w: World, init: Values, attached: bool, t: seq<Turn>,
                                      k: nat, j: nat, key: Key)
    requires Wiring.Wired(steps) && Honours(steps, w)
    requires Lawful(|steps|, w, init, attached, t)
    requires k < |t| && j < t[k].index && j < |steps| && key in steps[j].gives
    ensures SeesWriteOf(t, k, j, key)
    decreases k
  {
    assert TurnLaw(|steps|, w, init, attached, t, k);
    var p := k - 1;
    assert TurnLaw(|steps|, w, init, attached, t, p);
    if Passed(t[p]) && t[p].index == j {
      assert LastOf(t, k, j, p);
    } else {
      Provenance(steps, w, init, attached, t, p, j, key);
      var q: nat :| && LastOf(t, p, j, q) && !t[q].failed
               && key in t[q].after && key in t[p].before && t[p].before[key] == t[q].after[key];
      assert LastOf(t, k, j, q);
      if Passed(t[p]) {
        if key in steps[t[p].index].gives {
          Wiring.UniqueProvider(steps, t[p].index, j, key);
        }
        assert SameEntry(t[p].before, t[p].after, key);
      }
    }
  }

  /** In a wired pipeline no execution meets a missing key: each need has a writer, and only one. */
  lemma NeedsArePresent(steps: seq<Wiring.Step>, w: World, init: Values, attached: bool, t: seq<Turn>, k: nat, key: Key)
    requires Wiring.Wired(steps) && Honours(steps, w)
    requires Lawful(|steps|, w, init, attached, t)
    requires k < |t| && t[k].index < |steps| && key in steps[t[k].index].needs
    ensures GetText(t[k].before, key) != Err(KeyMissing(key))
    ensures GetNames(t[k].before, key) != Err(KeyMissing(key))
    ensures exists j :: && 0 <= j < t[k].index && key in steps[j].gives && SeesWriteOf(t, k, j, key)
                        && forall j' :: 0 <= j' < |steps| && key in steps[j'].gives ==> j' == j
  {
    var i := t[k].index;
    var a :| 0 <= a < |steps[i].needs| && steps[i].needs[a] == key;
    assert Wiring.StepFits(steps, i) && Wiring.ProvidedBefore(steps, i, steps[i].needs[a]);
    var j :| 0 <= j < i && key in steps[j].gives;
    Provenance(steps, w, init, attached, t, k, j, key);
    forall j' | 0 <= j' < |steps| && key in steps[j'].gives ensures j' == j {
      Wiring.UniqueProvider(steps, j, j', key);
    }
  }

  // ----- Acknowledged stepping -----

  /** The controls read over a run, pause by pause. */
  function Consumed(t: seq<Turn>): seq<Control> {
    if t == [] then [] else Consumed(t[..|t| - 1]) + t[|t| - 1].heard
  }

  /** A decision is the first control heard that names the pause at `position` and is well formed. */
  predicate Acks(answer: Answer, heard: seq<Control>, position: nat) {
    answer.Act? ==>
      && heard != [] && heard[|heard| - 1] == Control(answer.action, position)
      && !answer.action.Unknown?
      && forall j :: 0 <= j < |heard| - 1 ==> !Matches(heard[j], position)
  }

  predicate Acknowledged(u: Turn) {
    u.answer.Some? ==> Acks(u.answer.value, u.heard, u.index + 1)
  }

  ghost predicate WireLaw(stream: seq<Control>, m: Machine) {
    && m.chan.Wire?
    && Consumed(m.trace) + m.chan.controls == stream
    && forall u <- m.trace :: Acknowledged(u)
  }

  lemma AskAcknowledged(ch: Channel, position: nat)
    requires ch.Wire?
    ensures Acks(Ask(ch, position).0, Ask(ch, position).1, position)
  {
    var k := FirstMatch(ch.controls, position);
    if k < |ch.controls| {
      assert ch.controls[..k + 1][k] == ch.controls[k];
    }
  }

  lemma ExecuteAcknowledges(total: nat, w: World, m: Machine)
    requires m.i < total && m.chan.Wire?
    ensures Acknowledged(Execute(total, w, m).0)
  {
    AskAcknowledged(m.chan, m.i + 1);
    if Pauses(total, m, w.attempt(|m.trace|, m.i, m.values).failed) {
      var u, asked := Execute(total, w, m).0, Ask(m.chan, m.i + 1);
      assert u.index == m.i && u.answer == Some(asked.0) && u.heard == asked.1;
    } else {
      assert Execute(total, w, m).0.answer.None?;
    }
  }

  /** One iteration adds at most one turn, and moves what its pause heard off the wire. */
  lemma AdvanceHears(total: nat, w: World, m: Machine)
    requires m.i < total && m.chan.Wire?
    ensures var m' := Advance(total, w, m).m;
            && m'.chan.Wire?
            && (|| (m'.trace == m.trace && m'.chan == m.chan)
                || var u := Execute(total, w, m).0;
                   && m'.trace == m.trace + [u] && u.heard + m'.chan.controls == m.chan.controls)
  {
  }

  lemma WireGrows(stream: seq<Control>, t: seq<Turn>, u: Turn, rest: seq<Control>)
    requires Consumed(t) + (u.heard + rest) == stream
    requires Acknowledged(u) && forall v <- t :: Acknowledged(v)
    ensures Consumed(t + [u]) + rest == stream
    ensures forall v <- t + [u] :: Acknowledged(v)
  {
    var t' := t + [u];
    assert t'[..|t'| - 1] == t;
    assert Consumed(t') == Consumed(t) + u.heard;
    assert Consumed(t) + u.heard + rest == Consumed(t) + (u.heard + rest);
    forall v | v in t' ensures Acknowledged(v) {
      assert v in t || v == u;
    }
  }

  lemma AdvanceWire(total: nat, w: World, stream: seq<Control>, m: Machine)
    requires m.i < total && WireLaw(stream, m)
    ensures WireLaw(stream, Advance(total, w, m).m)
  {
    AdvanceHears(total, w, m);
    ExecuteAcknowledges(total, w, m);
    var m' := Advance(total, w, m).m;
    if m'.trace != m.trace {
      WireGrows(stream, m.trace, Execute(total, w, m).0, m'.chan.controls);
    }
  }

  lemma {:induction false} RunFromWire(total: nat, w: World, stream: seq<Control>, m: Machine)
    requires m.i <= total && WireLaw(stream, m)
    ensures WireLaw(stream, RunFrom(total, w, m).1)
    decreases Remaining(m.chan), total - m.i
  {
    if m.i < total {
      AdvanceWire(total, w, stream, m);
      var r := Advance(total, w, m);
      if r.Go? {
        RunFromWire(total, w, stream, r.m);
      }
    }
  }

  /** Socket-driven runs read the stream once, in order, and obey only acknowledged decisions. */
  lemma {:induction false} WireConserved(total: nat, w: World, init: Values, stream: seq<Control>, announcements: nat)
    ensures WireLaw(stream, RunFrom(total, w, Start(init, Wire(stream, announcements))).1)
  {
    RunFromWire(total, w, stream, Start(init, Wire(stream, announcements)));
  }

  /** While stepping, a turn is followed by the next step only if it was answered. */
  lemma SteppingNeedsAnswer(total: nat, w: World, init: Values, t: seq<Turn>, k: nat)
    requires Lawful(total, w, init, true, t) && k + 1 < |t|
    requires t[k + 1].index != t[k].index && !Continued(t[..k + 1])
    ensures t[k].answer == Some(Act(Next))
  {
    assert TurnLaw(total, w, init, true, t, k) && TurnLaw(total, w, init, true, t, k + 1);
    assert t[..k + 1] == t[..k] + [t[k]];
    ContinuedGrows(t[..k], t[k]);
  }

  /** Until a continue is accepted, a step starts only after a `next` acking its predecessor's pause. */
  lemma {:induction false} SteppingIsAcknowledged(total: nat, w: World, init: Values, stream: seq<Control>,
                                                  announcements: nat, k: nat)
    ensures var t := RunFrom(total, w, Start(init, Wire(stream, announcements))).1.trace;
            k + 1 < |t| && t[k + 1].index != t[k].index && !Continued(t[..k + 1]) ==>
              t[k].heard != [] && t[k].heard[|t[k].heard| - 1] == Control(Next, t[k].index + 1)
  {
    RunsAreLawful(total, w, init, Wire(stream, announcements));
    WireConserved(total, w, init, stream, announcements);
    var t := RunFrom(total, w, Start(init, Wire(stream, announcements))).1.trace;
    if k + 1 < |t| && t[k + 1].index != t[k].index && !Continued(t[..k + 1]) {
      SteppingNeedsAnswer(total, w, init, t, k);
      assert Acknowledged(t[k]);
    }
  }

  /** Turn `k` decides a pause whose number an earlier pause of the run already had. */
  ghost predicate NumberReused(t: seq<Turn>, k: nat)
    requires k < |t|
  {
    exists a :: 0 <= a < k && t[a].index == t[k].index
  }

  /** A pause's number, and so the ack it obeys, is new unless the pause follows an accepted rerun. */
  lemma NumberReusedIffReplayed(total: nat, w: World, init: Values, attached: bool, t: seq<Turn>, k: nat)
    requires Lawful(total, w, init, attached, t) && k < |t|
    ensures NumberReused(t, k) <==> k > 0 && Retried(t[k - 1])
  {
    if a :| 0 <= a < k && t[a].index == t[k].index {
      SameStart(total, w, init, attached, t, a, k);
    } else if k > 0 {
      NextTurn(total, w, init, attached, t, k - 1);
      assert t[k - 1].index != t[k].index;
    }
  }

  /** Without replays, no decision on the wire can have been meant for an earlier pause. */
  lemma {:induction false} NoStaleDecisions(total: nat, w: World, init: Values, stream: seq<Control>,
                                            announcements: nat, k: nat)
    requires var t := RunFrom(total, w, Start(init, Wire(stream, announcements))).1.trace;
             && k < |t| && t[k].answer.Some? && t[k].answer.value.Act?
             && forall j :: 0 <= j < k ==> !Retried(t[j])
    ensures var t := RunFrom(total, w, Start(init, Wire(stream, announcements))).1.trace;
            && t[k].heard != []
            && forall j :: 0 <= j < k ==> t[k].heard[|t[k].heard| - 1].ack != t[j].index + 1
  {
    RunsAreLawful(total, w, init, Wire(stream, announcements));
    WireConserved(total, w, init, stream, announcements);
    var t := RunFrom(total, w, Start(init, Wire(stream, announcements))).1.trace;
    assert Acknowledged(t[k]);
    NumberReusedIffReplayed(total, w, init, true, t, k);
  }

  /**
   * With replays one can: a `next` typed ahead of the rerun it follows decides the replayed pause,
   * because a replay pauses under the number it had.
   */
  lemma TypedAheadDecidesReplay(total: nat, w: World, m: Machine, rest: seq<Control>)
    requires m.i + 1 < total && m.pauseOnSuccess && m.chan.Wire? && m.chan.announcements >= 2
    requires m.chan.controls == [Control(Rerun, m.i + 1)] + ([Control(Next, m.i + 1)] + rest)
    requires forall n :: |m.trace| <= n <= |m.trace| + 1 ==> !w.cancelled(n) && !w.attempt(n, m.i, m.values).failed
    ensures var replayed := Advance(total, w, m);
            && replayed.Go? && replayed.m.i == m.i && replayed.m.values == m.values
            && var moved := Advance(total, w, replayed.m);
               moved.Go? && moved.m.i == m.i + 1 && moved.m.chan.controls == rest
  {
    var next := Control(Next, m.i + 1);
    ObeysFirst(total, w, m, Control(Rerun, m.i + 1), [next] + rest);
    var replayed := Advance(total, w, m).m;
    assert |replayed.trace| == |m.trace| + 1;
    ObeysFirst(total, w, replayed, next, rest);
  }

  /** While stepping, a control that answers the pause after a success is obeyed at once. */
  lemma ObeysFirst(total: nat, w: World, m: Machine, c: Control, tail: seq<Control>)
    requires m.i + 1 < total && m.pauseOnSuccess && m.chan.Wire? && m.chan.announcements > 0
    requires m.chan.controls == [c] + tail && Matches(c, m.i + 1)
    requires !w.attempt(|m.trace|, m.i, m.values).failed
    ensures Execute(total, w, m) ==
            (Turn(m.i, m.values, w.attempt(|m.trace|, m.i, m.values).after, false, Some(Act(c.cmd)), [c]),
             Wire(tail, m.chan.announcements - 1))
  {
    var cs := m.chan.controls;
    assert cs[0] == c && FirstMatch(cs, m.i + 1) == 0;
    assert cs[..1] == [c] && cs[1..] == tail;
  }

  lemma {:induction false} ConsumedHolds(t: seq<Turn>, k: nat, c: Control)
    requires k < |t| && c in t[k].heard
    ensures c in Consumed(t)
  {
    if k < |t| - 1 {
      ConsumedHolds(t[..|t| - 1], k, c);
    }
  }

  /** What a pause obeys was sent, under the pause's number. */
  lemma ObeyedIsOnWire(stream: seq<Control>, m: Machine, k: nat)
    requires WireLaw(stream, m) && k < |m.trace| && m.trace[k].answer.Some? && m.trace[k].answer.value.Act?
    ensures Control(m.trace[k].answer.value.action, m.trace[k].index + 1) in stream
    ensures !m.trace[k].answer.value.action.Unknown?
  {
    var u := m.trace[k];
    assert u in m.trace && Acknowledged(u);
    ConsumedHolds(m.trace, k, u.heard[|u.heard| - 1]);
  }

  /**
   * If nothing on the wire answers the pause at `position` and no earlier pause is told to continue,
   * the run never starts a later step, however many controls are queued for other pauses; unless a
   * step fails or the context ends first, it is reported as abandoned.
   */
  lemma {:induction false} QueuedKeysCannotSkip(total: nat, w: World, init: Values, stream: seq<Control>,
                                                announcements: nat, position: nat)
    requires 0 < position
    requires forall c <- stream :: c.ack != position && (c.cmd == Continue ==> c.ack > position)
    ensures var (o, m) := RunFrom(total, w, Start(init, Wire(stream, announcements)));
            && (forall u <- m.trace :: u.index + 1 <= position)
            && (position < total ==> !o.Success?)
            && (position < total && (forall u <- m.trace :: !u.failed) && (forall n :: !w.cancelled(n))
                ==> o.Abandoned? || o.DebuggerLost?)
  {
    var (o, m) := RunFrom(total, w, Start(init, Wire(stream, announcements)));
    var t := m.trace;
    RunsAreLawful(total, w, init, Wire(stream, announcements));
    WireConserved(total, w, init, stream, announcements);
    forall k | 0 <= k < |t| && t[k].answer.Some? && t[k].answer.value.Act?
      ensures t[k].index + 1 != position && (t[k].answer.value.action == Continue ==> t[k].index + 1 > position)
      ensures !t[k].answer.value.action.Unknown?
    {
      ObeyedIsOnWire(stream, m, k);
    }
    StuckBefore(total, w, init, t, position, |t|);
    if t != [] {
      assert TurnLaw(total, w, init, true, t, |t| - 1);
    }
  }

  /** With no continue before `position` and no decision at it, the index stays below it. */
  lemma {:induction false} StuckBefore(total: nat, w: World, init: Values, t: seq<Turn>, position: nat, n: nat)
    requires Lawful(total, w, init, true, t) && 0 < position && n <= |t|
    requires forall k :: 0 <= k < |t| && t[k].answer.Some? && t[k].answer.value.Act? ==>
              t[k].index + 1 != position && (t[k].answer.value.action == Continue ==> t[k].index + 1 > position)
    ensures forall k :: 0 <= k < n ==> t[k].index + 1 <= position && !Continued(t[..k])
  {
    if n > 0 {
      StuckBefore(total, w, init, t, position, n - 1);
      assert TurnLaw(total, w, init, true, t, n - 1);
      if n > 1 {
        assert TurnLaw(total, w, init, true, t, n - 2);
      }
    }
  }
}
