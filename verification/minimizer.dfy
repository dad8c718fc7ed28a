/**
 * The greedy loop of `minimize_seccomp_profile`: the candidate names are fixed
 * once, in sorted order, from the starting profile; each is removed from the
 * current working profile and the result is tried; the removal is kept only
 * when the container starts and the web battery passes, and otherwise the
 * name is recorded as necessary.
 */
module Minimizer {
  import opened Optional
  import opened Lists
  import opened Ordering
  import opened Policy
  import opened Probe

  /**
   * The world outside the model, as a function of the profile under trial:
   * what Docker answers when a container is launched with it, and what the
   * web application answers to each request while it runs.
   */
  datatype Env = Env(launch: Profile -> StartupTrace, respond: Profile -> Check -> Response)

  /** The record of trying one candidate against the working profile `base`. */
  datatype TrialReport = TrialReport(
    syscall: string,
    base: Profile,
    trial: Profile,
    startup: Startup,
    web: Option<WebResult>)   // None: the web battery was not run

  /** The removal is kept: the container started and then the battery passed (lines 272-278). */
  predicate Committed(t: TrialReport) {
    t.web.Some? && t.web.value.passed
  }

  /** Whether a profile passes both tests. */
  predicate TrialPasses(env: Env, p: Profile) {
    ContainerStarts(env.launch(p)) && WebWorks(env.respond(p)).passed
  }

  /**
   * One trial: remove the candidate from the working profile, launch, and run
   * the battery only if the container came up.
   */
  function RunTrial(env: Env, name: string, base: Profile): (t: TrialReport)
    ensures t.syscall == name && t.base == base && t.trial == RemoveSyscall(base, name)
    ensures t.web.Some? <==> ContainerStarts(env.launch(t.trial))
    ensures Committed(t) <==> TrialPasses(env, t.trial)
    ensures env.launch(t.trial).run.TimedOut? ==> t.startup == LaunchTimedOut && !Committed(t)
  {
    var trial := RemoveSyscall(base, name);
    var startup := ClassifyStartup(env.launch(trial));
    var web := if startup.Up? then Some(WebWorks(env.respond(trial))) else None;
    TrialReport(name, base, trial, startup, web)
  }

  /** The working profile after a trial: the trial profile if committed, else unchanged. */
  function After(t: TrialReport): Profile {
    if Committed(t) then t.trial else t.base
  }

  /** The working profile before the `i`-th trial (after all trials when `i == |trials|`). */
  function WorkingAt(baseline: Profile, trials: seq<TrialReport>, i: int): Profile
    requires 0 <= i <= |trials|
  {
    if i == 0 then baseline else After(trials[i - 1])
  }

  /** The `i`-th trial was run, through `env`, against the working profile of its time. */
  ghost predicate TrialAt(env: Env, baseline: Profile, trials: seq<TrialReport>, i: int)
    requires 0 <= i < |trials|
  {
    trials[i] == RunTrial(env, trials[i].syscall, WorkingAt(baseline, trials, i))
  }

  /** Every trial was. */
  ghost predicate Trace(env: Env, baseline: Profile, trials: seq<TrialReport>) {
    forall i :: 0 <= i < |trials| ==> TrialAt(env, baseline, trials, i)
  }

  /** The names reported as necessary: those whose trial failed. */
  function Necessary(trials: seq<TrialReport>): set<string> {
    set t | t in trials && !Committed(t) :: t.syscall
  }

  /** The names whose removal was kept. */
  function Removed(trials: seq<TrialReport>): set<string> {
    set t | t in trials && Committed(t) :: t.syscall
  }

  /** One more report adds its name to exactly one of the two sets. */
  lemma Tally(trials: seq<TrialReport>, r: TrialReport)
    ensures Committed(r) ==>
      Removed(trials + [r]) == Removed(trials) + {r.syscall} && Necessary(trials + [r]) == Necessary(trials)
    ensures !Committed(r) ==>
      Removed(trials + [r]) == Removed(trials) && Necessary(trials + [r]) == Necessary(trials) + {r.syscall}
  {
  }

  lemma TraceExtend(env: Env, baseline: Profile, trials: seq<TrialReport>, r: TrialReport)
    requires Trace(env, baseline, trials)
    requires r == RunTrial(env, r.syscall, WorkingAt(baseline, trials, |trials|))
    ensures Trace(env, baseline, trials + [r])
    ensures WorkingAt(baseline, trials + [r], |trials| + 1) == After(r)
  {
    var ts := trials + [r];
    forall i | 0 <= i < |ts| ensures TrialAt(env, baseline, ts, i) {
      assert WorkingAt(baseline, ts, i) == WorkingAt(baseline, trials, i);
      if i < |trials| {
        assert TrialAt(env, baseline, trials, i);
      }
    }
  }

  /** Trying pairwise different names leaves no name both removed and necessary. */
  lemma Disjoint(trials: seq<TrialReport>)
    requires forall i, j :: 0 <= i < j < |trials| ==> trials[i].syscall != trials[j].syscall
    ensures Removed(trials) !! Necessary(trials)
  {
  }

  /** The loop invariant of `Minimize` survives one more trial. */
  lemma Advance(
    env: Env, baseline: Profile, cands: seq<string>,
    trials: seq<TrialReport>, working: Profile, necessary: set<string>, report: TrialReport)
    requires |trials| < |cands|
    requires Trace(env, baseline, trials)
    requires working == WorkingAt(baseline, trials, |trials|)
    requires necessary == Necessary(trials)
    requires Removed(trials) + necessary == Elems(cands[..|trials|])
    requires NameSet(working) <= NameSet(baseline)
    requires NoDupGroups(baseline) ==>
      NoDupGroups(working) && NameSet(working) == NameSet(baseline) - Removed(trials)
    requires report == RunTrial(env, cands[|trials|], working)
    ensures Trace(env, baseline, trials + [report])
    ensures After(report) == WorkingAt(baseline, trials + [report], |trials| + 1)
    ensures Necessary(trials + [report])
      == if Committed(report) then necessary else necessary + {cands[|trials|]}
    ensures Removed(trials + [report]) + Necessary(trials + [report]) == Elems(cands[..|trials| + 1])
    ensures NameSet(After(report)) <= NameSet(baseline)
    ensures NoDupGroups(baseline) ==>
      NoDupGroups(After(report))
      && NameSet(After(report)) == NameSet(baseline) - Removed(trials + [report])
  {
    TraceExtend(env, baseline, trials, report);
    AdvanceTally(cands, trials, necessary, report);
    AdvanceNames(baseline, trials, working, report);
  }

  /** The removed/necessary bookkeeping of one step. */
  lemma AdvanceTally(cands: seq<string>, trials: seq<TrialReport>, necessary: set<string>, report: TrialReport)
    requires |trials| < |cands| && report.syscall == cands[|trials|]
    requires necessary == Necessary(trials)
    requires Removed(trials) + necessary == Elems(cands[..|trials|])
    ensures Necessary(trials + [report])
      == if Committed(report) then necessary else necessary + {cands[|trials|]}
    ensures Removed(trials + [report]) + Necessary(trials + [report]) == Elems(cands[..|trials| + 1])
  {
    var name := cands[|trials|];
    Tally(trials, report);
    assert cands[..|trials| + 1] == cands[..|trials|] + [name];
    assert Elems(cands[..|trials|] + [name]) == Elems(cands[..|trials|]) + {name};
  }

  /** The name-set bookkeeping of one step. */
  lemma AdvanceNames(baseline: Profile, trials: seq<TrialReport>, working: Profile, report: TrialReport)
    requires report.base == working && report.trial == RemoveSyscall(working, report.syscall)
    requires NameSet(working) <= NameSet(baseline)
    requires NoDupGroups(baseline) ==>
      NoDupGroups(working) && NameSet(working) == NameSet(baseline) - Removed(trials)
    ensures NameSet(After(report)) <= NameSet(baseline)
    ensures NoDupGroups(baseline) ==>
      NoDupGroups(After(report))
      && NameSet(After(report)) == NameSet(baseline) - Removed(trials + [report])
  {
    RemoveNameSet(working, report.syscall);
    Tally(trials, report);
  }

  /**
   * `minimize_seccomp_profile` without its I/O: returns the minimized profile,
   * the names found necessary, and one report per candidate.
   */
  method Minimize(env: Env, baseline: Profile)
    returns (final: Profile, necessary: set<string>, trials: seq<TrialReport>)
    ensures |trials| == |AllSyscalls(baseline)|
    ensures forall i :: 0 <= i < |trials| ==> trials[i].syscall == AllSyscalls(baseline)[i]
    ensures Trace(env, baseline, trials)
    ensures final == WorkingAt(baseline, trials, |trials|)
    ensures necessary == Necessary(trials)
    ensures Removed(trials) + necessary == NameSet(baseline)
    ensures Removed(trials) !! necessary
    ensures NameSet(final) <= NameSet(baseline)
    ensures NoDupGroups(baseline) ==> NameSet(final) == NameSet(baseline) - Removed(trials)
    ensures NoDupGroups(baseline) ==> NameSet(final) == necessary
  {
    var candidates := AllSyscalls(baseline);
    var working := baseline;
    necessary := {};
    trials := [];
    var i := 0;
    while i < |candidates|
      invariant 0 <= i <= |candidates|
      invariant |trials| == i
      invariant forall k :: 0 <= k < i ==> trials[k].syscall == candidates[k]
      invariant Trace(env, baseline, trials)
      invariant working == WorkingAt(baseline, trials, i)
      invariant necessary == Necessary(trials)
      invariant Removed(trials) + necessary == Elems(candidates[..i])
      invariant NameSet(working) <= NameSet(baseline)
      invariant NoDupGroups(baseline) ==>
        NoDupGroups(working) && NameSet(working) == NameSet(baseline) - Removed(trials)
    {
      var name := candidates[i];
      var report := RunTrial(env, name, working);
      Advance(env, baseline, candidates, trials, working, necessary, report);
      if Committed(report) {
        working := report.trial;
      } else {
        necessary := necessary + {name};
      }
      assert working == After(report) && necessary == Necessary(trials + [report]);
      NamesExtend(candidates, trials, report);
      trials := trials + [report];
      i := i + 1;
    }
    assert candidates[..i] == candidates;
    SortedDistinct(candidates);
    Disjoint(trials);
    final := working;
  }

  /** The trials keep following the candidate list when the next one is appended. */
  lemma NamesExtend(cands: seq<string>, trials: seq<TrialReport>, r: TrialReport)
    requires |trials| < |cands| && r.syscall == cands[|trials|]
    requires forall k :: 0 <= k < |trials| ==> trials[k].syscall == cands[k]
    ensures forall k :: 0 <= k <= |trials| ==> (trials + [r])[k].syscall == cands[k]
  {
  }

  /** What one step of a trace does to the working profile. */
  lemma StepAt(env: Env, baseline: Profile, trials: seq<TrialReport>, j: int)
    requires Trace(env, baseline, trials)
    requires 0 < j <= |trials|
    ensures trials[j - 1].base == WorkingAt(baseline, trials, j - 1)
    ensures trials[j - 1].trial == RemoveSyscall(WorkingAt(baseline, trials, j - 1), trials[j - 1].syscall)
    ensures Committed(trials[j - 1]) <==> TrialPasses(env, trials[j - 1].trial)
    ensures WorkingAt(baseline, trials, j) == After(trials[j - 1])
  {
    assert TrialAt(env, baseline, trials, j - 1);
  }

  lemma StepShrinks(env: Env, baseline: Profile, trials: seq<TrialReport>, j: int)
    requires Trace(env, baseline, trials)
    requires 0 < j <= |trials|
    ensures NameSet(WorkingAt(baseline, trials, j)) <= NameSet(WorkingAt(baseline, trials, j - 1))
  {
    StepAt(env, baseline, trials, j);
    RemoveNameSet(WorkingAt(baseline, trials, j - 1), trials[j - 1].syscall);
  }

  /**
   * A commit removes only its own candidate, so before trial `j` the working
   * profile still lists every candidate from `j` on.
   */
  lemma {:induction false} UntriedSurvive(
    env: Env, baseline: Profile, cands: seq<string>, trials: seq<TrialReport>, j: int)
    requires Trace(env, baseline, trials)
    requires Distinct(cands) && Elems(cands) <= NameSet(baseline)
    requires |trials| <= |cands|
    requires forall k :: 0 <= k < |trials| ==> trials[k].syscall == cands[k]
    requires 0 <= j <= |trials|
    ensures forall k :: j <= k < |cands| ==> cands[k] in NameSet(WorkingAt(baseline, trials, j))
  {
    if j == 0 {
      forall k | 0 <= k < |cands| ensures cands[k] in NameSet(baseline) {
        assert cands[k] in Elems(cands);
      }
    } else {
      UntriedSurvive(env, baseline, cands, trials, j - 1);
      StepAt(env, baseline, trials, j);
      var w := WorkingAt(baseline, trials, j - 1);
      var c := trials[j - 1].syscall;
      forall k | j <= k < |cands| ensures cands[k] in NameSet(WorkingAt(baseline, trials, j)) {
        assert cands[k] in NameSet(w);
        if Committed(trials[j - 1]) {
          assert cands[k] != cands[j - 1];
          KeepsOther(w, c, cands[k]);
        }
      }
    }
  }

  /**
   * Every candidate is still listed by the working profile when its trial
   * runs, whether or not groups repeat names: no trial is a no-op removal.
   */
  lemma CandidatePresent(env: Env, baseline: Profile, trials: seq<TrialReport>, i: int)
    requires Trace(env, baseline, trials)
    requires |trials| <= |AllSyscalls(baseline)|
    requires forall k :: 0 <= k < |trials| ==> trials[k].syscall == AllSyscalls(baseline)[k]
    requires 0 <= i < |trials|
    ensures trials[i].syscall in NameSet(trials[i].base)
  {
    var cands := AllSyscalls(baseline);
    SortedDistinct(cands);
    UntriedSurvive(env, baseline, cands, trials, i);
    StepAt(env, baseline, trials, i + 1);
  }

  /** The working profile's name set never grows from one trial to a later one. */
  lemma {:induction false} Shrinks(env: Env, baseline: Profile, trials: seq<TrialReport>, i: int, j: int)
    requires Trace(env, baseline, trials)
    requires 0 <= i <= j <= |trials|
    ensures NameSet(WorkingAt(baseline, trials, j)) <= NameSet(WorkingAt(baseline, trials, i))
    decreases j
  {
    if i < j {
      Shrinks(env, baseline, trials, i, j - 1);
      StepShrinks(env, baseline, trials, j);
    }
  }

  /**
   * When a trial is kept exactly if its profile still lists every name of
   * `required`, it is kept iff the candidate is not required; so if the
   * working profile has lost exactly the unrequired names of `tried`, it
   * afterwards has lost exactly those of `tried` plus the candidate.
   */
  lemma FoundStep(
    required: set<string>, names: set<string>, tried: set<string>,
    w: Profile, c: string, t: TrialReport)
    requires required <= names && c in names && c !in tried
    requires NoDupGroups(w) && NameSet(w) == names - (tried - required)
    requires t.base == w && t.trial == RemoveSyscall(w, c)
    requires Committed(t) <==> required <= NameSet(t.trial)
    ensures Committed(t) <==> c !in required
    ensures NoDupGroups(After(t))
    ensures NameSet(After(t)) == names - ((tried + {c}) - required)
  {
    var trial := t.trial;
    RemoveNameSet(w, c);
    var before, after := NameSet(w), NameSet(trial);
    assert after == before - {c};
    if c in required {
      KeepRequired(names, tried, required, c);
      assert !(required <= after) by {
        assert c !in after;
      }
    } else {
      DropUnrequired(names, tried, required, c);
    }
  }

  lemma KeepRequired(names: set<string>, tried: set<string>, required: set<string>, c: string)
    requires c in required
    ensures names - ((tried + {c}) - required) == names - (tried - required)
  {
  }

  lemma DropUnrequired(names: set<string>, tried: set<string>, required: set<string>, c: string)
    requires required <= names && c !in required
    ensures required <= names - (tried - required) - {c}
    ensures names - ((tried + {c}) - required) == names - (tried - required) - {c}
  {
  }

  /**
   * When the service needs exactly the names in `required` (all listed by the
   * starting profile) and no group repeats a name, a pass over repeat-free
   * candidates taken from the profile finds them: a trial commits iff its
   * candidate is not required, and before trial `i` the working profile has
   * lost exactly the candidates tried so far that are not required.
   */
  lemma {:induction false} FoundUpTo(
    env: Env, baseline: Profile, required: set<string>, cands: seq<string>,
    trials: seq<TrialReport>, i: int)
    requires Trace(env, baseline, trials)
    requires Distinct(cands) && Elems(cands) <= NameSet(baseline)
    requires |trials| == |cands|
    requires forall k :: 0 <= k < |trials| ==> trials[k].syscall == cands[k]
    requires NoDupGroups(baseline) && required <= NameSet(baseline)
    requires forall p :: TrialPasses(env, p) <==> required <= NameSet(p)
    requires 0 <= i <= |trials|
    ensures NoDupGroups(WorkingAt(baseline, trials, i))
    ensures NameSet(WorkingAt(baseline, trials, i)) == NameSet(baseline) - (Elems(cands[..i]) - required)
    ensures forall k :: 0 <= k < i ==> (Committed(trials[k]) <==> cands[k] !in required)
    decreases i
  {
    if i > 0 {
      FoundUpTo(env, baseline, required, cands, trials, i - 1);
      FoundAt(env, baseline, required, cands, trials, i);
    }
  }

  /** The step of `FoundUpTo` from trial `i - 1` to trial `i`. */
  lemma FoundAt(
    env: Env, baseline: Profile, required: set<string>, cands: seq<string>,
    trials: seq<TrialReport>, i: int)
    requires Trace(env, baseline, trials)
    requires Distinct(cands) && Elems(cands) <= NameSet(baseline)
    requires |trials| == |cands|
    requires forall k :: 0 <= k < |trials| ==> trials[k].syscall == cands[k]
    requires required <= NameSet(baseline)
    requires forall p :: TrialPasses(env, p) <==> required <= NameSet(p)
    requires 0 < i <= |trials|
    requires NoDupGroups(WorkingAt(baseline, trials, i - 1))
    requires NameSet(WorkingAt(baseline, trials, i - 1))
      == NameSet(baseline) - (Elems(cands[..i - 1]) - required)
    ensures NoDupGroups(WorkingAt(baseline, trials, i))
    ensures NameSet(WorkingAt(baseline, trials, i)) == NameSet(baseline) - (Elems(cands[..i]) - required)
    ensures Committed(trials[i - 1]) <==> cands[i - 1] !in required
  {
    var c := cands[i - 1];
    DistinctPrefix(cands, i);
    assert c in Elems(cands);
    assert TrialAt(env, baseline, trials, i - 1);
    assert TrialPasses(env, trials[i - 1].trial) <==> required <= NameSet(trials[i - 1].trial);
    FoundStep(required, NameSet(baseline), Elems(cands[..i - 1]),
      WorkingAt(baseline, trials, i - 1), c, trials[i - 1]);
  }

  /**
   * The greedy pass against a service that needs exactly `required`: the
   * necessary set is `required` and the minimized profile lists exactly it.
   */
  lemma FindsRequired(
    env: Env, baseline: Profile, required: set<string>, trials: seq<TrialReport>)
    requires Trace(env, baseline, trials)
    requires |trials| == |AllSyscalls(baseline)|
    requires forall k :: 0 <= k < |trials| ==> trials[k].syscall == AllSyscalls(baseline)[k]
    requires NoDupGroups(baseline) && required <= NameSet(baseline)
    requires forall p :: TrialPasses(env, p) <==> required <= NameSet(p)
    ensures Necessary(trials) == required
    ensures NameSet(WorkingAt(baseline, trials, |trials|)) == required
  {
    var cands := AllSyscalls(baseline);
    SortedDistinct(cands);
    FoundUpTo(env, baseline, required, cands, trials, |trials|);
    assert cands[..|trials|] == cands;
    forall x | x in required ensures x in Necessary(trials) {
      assert x in Elems(cands);
      var k :| 0 <= k < |cands| && cands[k] == x;
      assert trials[k] in trials;
    }
  }

  /** A baseline allowing read, write, openat, futex and socket in one group. */
  function FiveCallBaseline(): Profile {
    Profile(map[], Some([
      Group(Some(["read", "write", "openat", "futex", "socket"]), map["action" := "\"SCMP_ACT_ALLOW\""])]))
  }

  lemma FiveCallBaselineFacts()
    ensures NoDupGroups(FiveCallBaseline())
    ensures "futex" in NameSet(FiveCallBaseline())
  {
    var names := ["read", "write", "openat", "futex", "socket"];
    var g := Group(Some(names), map["action" := "\"SCMP_ACT_ALLOW\""]);
    assert Groups(FiveCallBaseline()) == [g];
    assert Names(g) == names;
    assert g in Groups(FiveCallBaseline()) && names[3] == "futex" && names[3] in Names(g);
    assert "futex" in GroupNames(Groups(FiveCallBaseline()));
    assert Distinct(names) by {
      assert names[0][0] == 'r' && names[1][0] == 'w' && names[2][0] == 'o';
      assert names[3][0] == 'f' && names[4][0] == 's';
      forall i, j | 0 <= i < j < |names| ensures names[i] != names[j] {
        assert names[i][0] != names[j][0];
      }
    }
  }

  /** Its candidates, in the order the pass tries them. */
  lemma FiveCallCandidates()
    ensures AllSyscalls(FiveCallBaseline()) == ["futex", "openat", "read", "socket", "write"]
  {
    var names := ["read", "write", "openat", "futex", "socket"];
    var sorted := ["futex", "openat", "read", "socket", "write"];
    var g := Group(Some(names), map["action" := "\"SCMP_ACT_ALLOW\""]);
    assert Groups(FiveCallBaseline()) == [g];
    assert Names(g) == names;
    assert StrictlySorted(sorted) by {
      assert sorted[0][0] == 'f' && sorted[1][0] == 'o' && sorted[2][0] == 'r';
      assert sorted[3][0] == 's' && sorted[4][0] == 'w';
      forall i, j | 0 <= i < j < |sorted| ensures Less(sorted[i], sorted[j]) {
        assert sorted[i][0] < sorted[j][0];
      }
    }
    assert Elems(sorted) == Elems(names);
    assert NameSet(FiveCallBaseline()) == Elems(names) by {
      forall x | x in Elems(names) ensures x in NameSet(FiveCallBaseline()) {
        assert g in Groups(FiveCallBaseline()) && x in Names(g);
      }
    }
    AllSyscallsCanonical(FiveCallBaseline(), sorted);
  }

  /**
   * Against a service that works exactly when futex is allowed, the pass over
   * that baseline removes the other four, reports futex alone as necessary,
   * and leaves a profile listing only futex.
   */
  lemma FutexScenario(env: Env, trials: seq<TrialReport>)
    requires Trace(env, FiveCallBaseline(), trials)
    requires |trials| == 5
    requires forall k :: 0 <= k < 5 ==>
      trials[k].syscall == ["futex", "openat", "read", "socket", "write"][k]
    requires forall p :: TrialPasses(env, p) <==> "futex" in NameSet(p)
    ensures Necessary(trials) == {"futex"}
    ensures NameSet(WorkingAt(FiveCallBaseline(), trials, |trials|)) == {"futex"}
  {
    FiveCallBaselineFacts();
    FiveCallCandidates();
    forall p ensures TrialPasses(env, p) <==> {"futex"} <= NameSet(p) {
    }
    FindsRequired(env, FiveCallBaseline(), {"futex"}, trials);
  }
}
