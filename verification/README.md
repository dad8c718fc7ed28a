# Seccomp profile minimizer, modelled in Dafny

`seccomp-minimizer.py` shrinks a permissive Docker seccomp profile for a Flask
container. It does this one system call name at a time. For each name it
builds a trial profile without that name and launches the container under it.
The removal is kept only if the container is still running after the settle
delay and three HTTP checks return status 200. Otherwise the name is recorded
as necessary.

This project models the decision logic of that script:

- **Policy** (`policy.dfy`): the profile as a datatype. It covers
  `get_all_syscalls` (flatten, de-duplicate, sort) and
  `remove_syscall_from_profile` (drop the name from every group, keep the
  group structure).
- **Lists** and **Ordering** (`lists.dfy`, `ordering.dfy`): the Python
  behaviour those two functions rely on. `list.remove` deletes only the
  *first* occurrence. `sorted` orders strings by code point, with a proper
  prefix first.
- **Probe** (`probe.dfy`): the outcome logic of `run_container_with_profile`
  and `test_web_functionality`. Their inputs are what Docker and the web
  application answered.
- **Minimizer** (`minimizer.dfy`): the greedy loop of
  `minimize_seccomp_profile`. It is a method over an environment `Env`, which
  gives, for any trial profile, Docker's answers and the application's
  responses. The per-trial reports form a trace. Lemmas about that trace cover
  monotone shrinking, the removed/necessary partition, and the result against
  a service with a fixed set of required names.

Because `list.remove` drops one occurrence, a group that lists a name twice
still lists it after one removal. The set-style properties therefore assume
`NoDupGroups`: no single group repeats a name. Names may still repeat across
groups. `Policy.RepeatedNameSurvivesRemoval` shows what happens without that
assumption.

Two details of the script shape the model:

- A web check passes only on status 200 exactly
  (seccomp-minimizer.py:176, 188, 201).
- The candidates are computed once, from the working profile right after it
  is copied from the baseline (line 252), and every candidate gets a trial. A
  commit removes only its own candidate, so each later candidate is still
  listed when it is tried (`Minimizer.CandidatePresent`).

## Model

| member | source | states |
|---|---|---|
| Lists.RemoveFirst | seccomp-minimizer.py:89-90 | Removing a name the list does not hold returns the list unchanged; otherwise the list gets exactly one element shorter |
| Lists.RemoveFirstCount | seccomp-minimizer.py:90 | `list.remove` takes exactly one occurrence of the name out of the multiset of names (none if absent) |
| Lists.RemoveFirstAt | seccomp-minimizer.py:90 | The occurrence removed is the first one, and the other elements keep their order |
| Lists.RemoveFirstDistinct | seccomp-minimizer.py:88-90 | On a repeat-free list the name disappears altogether, every other name stays, and the list stays repeat-free |
| Lists.RemoveFirstKeepsDuplicate | seccomp-minimizer.py:90 | A name listed twice is still listed after one removal |
| Ordering.SortUnique | seccomp-minimizer.py:81 | `sorted(list(set(xs)))` is strictly ascending in Python string order and holds exactly the values of `xs` |
| Ordering.SortedUnique | seccomp-minimizer.py:81 | Two strictly ascending lists with the same values are equal, so the candidate order depends only on the name set |
| Policy.Collect | seccomp-minimizer.py:78-80 | Extending with each group's `names` (empty when absent) collects exactly the names listed by some group |
| Policy.AllSyscalls | seccomp-minimizer.py:76-81 | The flattening is strictly ascending (sorted, no repeats), and its elements are exactly the union of the groups' names |
| Policy.AllSyscallsCanonical | seccomp-minimizer.py:76-81 | Any strictly ascending listing of the profile's names is the flattening |
| Policy.UnnamedGroupAddsNothing | seccomp-minimizer.py:79-80 | Adding a group without `names` leaves the flattening unchanged |
| Policy.RemoveInGroup | seccomp-minimizer.py:88-92 | A group keeps its other members and the presence of `names`; it is unchanged if it does not list the name; otherwise its names lose the first occurrence of the name and the rest keep their order; a repeat-free group loses exactly the name |
| Policy.RemoveSyscall | seccomp-minimizer.py:83-94 | Removal keeps the top-level members, the number and order of groups, every non-`names` member (so emptied groups are retained); a group not listing the name is unchanged; in every other group the first occurrence of the name is cut out and the remaining names keep their order |
| Policy.RemoveNameSet | seccomp-minimizer.py:83-94 | Removal never adds names; with no in-group repeats, the name set loses exactly the removed name and stays repeat-free |
| Policy.RemoveAbsent | seccomp-minimizer.py:88-90 | Removing a name the profile does not list returns an equal profile |
| Policy.RemoveIdempotent | seccomp-minimizer.py:88-90 | With no in-group repeats, removing a name twice equals removing it once |
| Policy.RemoveFlattened | seccomp-minimizer.py:76-94 | With no in-group repeats, the flattening after removal is the old flattening with that name taken out, and the name is gone |
| Policy.RepeatedNameSurvivesRemoval | seccomp-minimizer.py:88-90 | A group listing a name twice still lists it after one removal, and a second removal changes the profile again |
| Probe.ClassifyStartup | seccomp-minimizer.py:114-163 | Each failure outcome is reached only from its own branch: non-zero `docker run` exit, `docker run` timeout, non-zero `docker inspect` exit, or a container that is not running |
| Probe.ContainerStarts | seccomp-minimizer.py:96-163 | True iff `docker run` exits 0, `docker inspect` exits 0 and `State.Running` is true; a timeout or exception in either call gives False |
| Probe.LaunchFailureDecides | seccomp-minimizer.py:121-123 | Once `docker run` has failed, the later answers do not affect the outcome, which is a failure |
| Probe.RunChecks | seccomp-minimizer.py:172-213 | Checks go out in order and stop at the first non-200 response; the ones sent form a prefix; the verdict is True iff every check got 200; on failure the last one sent is the failing one |
| Probe.WebWorks | seccomp-minimizer.py:165-213 | True iff GET `/`, the form POST to `/write` and the JSON POST to `/api/write` all return 200; a failing main page means only that one request is sent |
| Minimizer.RunTrial | seccomp-minimizer.py:262-284 | The trial profile is the working profile minus the candidate; the web battery runs iff the container started; the removal is committed iff the container starts and then the battery passes; a launch timeout means no commit |
| Minimizer.Minimize | seccomp-minimizer.py:236-301 | The candidates are the starting profile's flattening, each tried once, in order, against the current working profile; removed and necessary are disjoint and together cover the baseline's names; the final name set is contained in the baseline's; with no in-group repeats it is the baseline minus the removed names, which is the necessary set |
| Minimizer.Advance | seccomp-minimizer.py:272-288 | One trial keeps the loop's bookkeeping true: a commit moves the name to removed and replaces the working profile, a failure adds it to necessary and leaves the working profile unchanged |
| Minimizer.Disjoint | seccomp-minimizer.py:259-288 | When pairwise different names are tried, no name is both removed and necessary |
| Minimizer.UntriedSurvive | seccomp-minimizer.py:259-278 | Before each trial the working profile still lists every candidate not yet tried, because a commit removes only its own candidate |
| Minimizer.CandidatePresent | seccomp-minimizer.py:252-263 | Every candidate is still listed by the working profile its trial removes it from, even when groups repeat names |
| Minimizer.Shrinks | seccomp-minimizer.py:263-278 | The working profile's name set never grows from one iteration to a later one |
| Minimizer.FoundStep | seccomp-minimizer.py:263-284 | When a trial commits exactly if its profile still lists every needed name (all listed before it), it commits iff its candidate is not needed; the working profile then loses exactly that candidate or nothing |
| Minimizer.FoundUpTo | seccomp-minimizer.py:259-288 | Against a service that needs exactly a set of the baseline's names, a trial commits iff its candidate is not needed, and before each trial the working profile has lost exactly the unneeded candidates already tried |
| Minimizer.FindsRequired | seccomp-minimizer.py:259-301 | Against such a service the necessary set is exactly the needed names, and so is the final profile's name set |
| Minimizer.FiveCallCandidates | seccomp-minimizer.py:252 | A group listing read, write, openat, futex and socket yields the candidate order futex, openat, read, socket, write |
| Minimizer.FutexScenario | seccomp-minimizer.py:259-301 | For that baseline, tried in that order against a service that needs only futex: necessary = {futex}, and the final profile lists only futex |

## Left out

- Docker calls: `stop_all_containers`, `stop_container`, and the `docker run`, `docker inspect` and `docker logs` subprocesses. This is external process I/O. Their results enter the model as the answers in `Probe.StartupTrace`, supplied by `Minimizer.Env`. Fetching logs has no effect on the outcome, so it is not modelled.
- HTTP requests through `requests`. This is network I/O. Each check's result is a `Probe.Response` produced by `Env.respond` for the trial profile.
- Loading and saving JSON files, and deleting trial files. This is filesystem I/O. Saving is assumed never to fail. The code sets the working profile (line 277) before it saves it (line 278). If that save raised, the handler at lines 286-288 would also add the name to the necessary set, and the name would be both removed and necessary. The model does not cover this.
- The 30-second launch timeout, the 5-second settle delay and the 10-second request timeouts. These are wall-clock behaviour. Only their results appear, as `TimedOut` and `RequestFailed`.
- Logging, the final report, and the `KeyboardInterrupt` and exception handlers at lines 312-322. These handle presentation and cleanup only.
- Malformed documents, which the datatypes cannot express (they admit only a list of objects, or absence):
  - A non-empty `syscalls` member that is a string, an object, or a list holding a non-object raises `AttributeError` at line 80, from `.get` on a group that is not a dict.
  - A `names` member that is a string or an object does not raise in `get_all_syscalls`: `extend` at line 80 adds its characters or keys as names. The first trial of such a name then raises `AttributeError` at line 90, because a `str` or `dict` has no `remove`. That call (line 263) is outside the trial's `try`, so the pass ends in the top-level handler at lines 319-322.
  - A `syscalls` or `names` member that is `null` or a number raises `TypeError` at line 79 or 80.
  - A `names` list holding non-strings: an unhashable element (a list or an object) raises `TypeError` in `set` at line 81, and numbers mixed with strings, as in `[1, "a"]`, raise `TypeError` in `sorted` at line 81. A profile whose names are all numbers raises nothing and is minimized like one with string names; the model's names are strings only.
- Probe.ContainerStarts: `State.Running` is taken as a boolean. Python's truthiness of other JSON values is not modelled.
