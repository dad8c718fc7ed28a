/**
 * The seccomp profile as the minimizer sees it: a JSON document whose
 * optional `syscalls` member is an ordered list of rule groups, each with an
 * optional `names` list. Flattening (`get_all_syscalls`) and removing one
 * name (`remove_syscall_from_profile`) are pure functions on it.
 */
module Policy {
  import opened Optional
  import opened Lists
  import opened Ordering

  /**
   * One rule group. `names` is its `names` member, None when missing;
   * `others` stands for every other member (`action`, `args`, `comment`,
   * `includes`, ...), each kept as its serialized text, which the minimizer
   * never reads.
   */
  datatype Group = Group(names: Option<seq<string>>, others: map<string, string>)

  /**
   * A whole profile. `settings` stands for the top-level members other than
   * `syscalls` (`defaultAction`, `architectures`, ...); `syscalls` is None
   * when the member is missing.
   */
  datatype Profile = Profile(settings: map<string, string>, syscalls: Option<seq<Group>>)

  /** `profile.get('syscalls', [])` */
  function Groups(p: Profile): seq<Group> {
    p.syscalls.GetOr([])
  }

  /** `syscall_group.get('names', [])` */
  function Names(g: Group): seq<string> {
    g.names.GetOr([])
  }

  /** Every name listed by some group: the union the flattening computes. */
  function GroupNames(gs: seq<Group>): set<string> {
    set g, n | g in gs && n in Names(g) :: n
  }

  function NameSet(p: Profile): set<string> {
    GroupNames(Groups(p))
  }

  /** No group lists the same name twice (names may still repeat across groups). */
  predicate NoDupGroups(p: Profile) {
    forall g :: g in Groups(p) ==> Distinct(Names(g))
  }

  /** Everything of a group except its names list, which must still be present or absent alike. */
  predicate SameShape(a: Group, b: Group) {
    a.others == b.others && a.names.Some? == b.names.Some?
  }

  /** The loop of `get_all_syscalls` that extends one list with each group's names. */
  function Collect(gs: seq<Group>): (r: seq<string>)
    ensures Elems(r) == GroupNames(gs)
  {
    if |gs| == 0 then []
    else
      var r := Names(gs[0]) + Collect(gs[1..]);
      assert gs == [gs[0]] + gs[1..];
      assert Elems(r) == Elems(Names(gs[0])) + Elems(Collect(gs[1..]));
      assert GroupNames(gs) == Elems(Names(gs[0])) + GroupNames(gs[1..]);
      r
  }

  /**
   * `get_all_syscalls`: every name of every group, once each, in Python's
   * string order; groups without `names` add nothing.
   */
  function AllSyscalls(p: Profile): (r: seq<string>)
    ensures StrictlySorted(r)
    ensures Elems(r) == NameSet(p)
  {
    SortUnique(Collect(Groups(p)))
  }

  /** The flattening is the one sorted, repeat-free listing of the profile's names. */
  lemma AllSyscallsCanonical(p: Profile, s: seq<string>)
    requires StrictlySorted(s) && Elems(s) == NameSet(p)
    ensures s == AllSyscalls(p)
  {
    SortedUnique(s, AllSyscalls(p));
  }

  /** A group without a `names` member contributes nothing to the flattening. */
  lemma UnnamedGroupAddsNothing(p: Profile, g: Group)
    requires g.names.None?
    ensures AllSyscalls(p.(syscalls := Some(Groups(p) + [g]))) == AllSyscalls(p)
  {
    var q := p.(syscalls := Some(Groups(p) + [g]));
    assert Groups(q) == Groups(p) + [g];
    assert NameSet(q) == NameSet(p);
    AllSyscallsCanonical(q, AllSyscalls(p));
  }

  /**
   * Lines 88-90 for one group: when the group has a names list holding the
   * name, its first occurrence is removed.
   */
  function RemoveInGroup(g: Group, n: string): (r: Group)
    ensures SameShape(r, g)
    ensures n !in Names(g) ==> r == g
    ensures CutFirst(Names(g), n, Names(r))
    ensures Distinct(Names(g)) ==> Distinct(Names(r)) && Elems(Names(r)) == Elems(Names(g)) - {n}
  {
    if g.names.Some? && n in g.names.value then
      RemoveFirstAt(g.names.value, n);
      RemoveFirstDistinctIf(g.names.value, n);
      g.(names := Some(RemoveFirst(g.names.value, n)))
    else
      RemoveFirstDistinctIf(Names(g), n);
      g
  }

  lemma RemoveFirstDistinctIf(s: seq<string>, n: string)
    ensures Distinct(s) ==> Distinct(RemoveFirst(s, n)) && Elems(RemoveFirst(s, n)) == Elems(s) - {n}
  {
    if Distinct(s) {
      RemoveFirstDistinct(s, n);
    }
  }

  /**
   * `remove_syscall_from_profile`: a new profile in which every group that
   * lists the name has lost its first occurrence of it. Groups keep their
   * number, order and other members, and a group left with an empty list is
   * kept.
   */
  function RemoveSyscall(p: Profile, n: string): (r: Profile)
    ensures r.settings == p.settings && r.syscalls.Some? == p.syscalls.Some?
    ensures |Groups(r)| == |Groups(p)|
    ensures forall i :: 0 <= i < |Groups(p)| ==> SameShape(Groups(r)[i], Groups(p)[i])
    ensures forall i :: 0 <= i < |Groups(p)| ==>
      multiset(Names(Groups(r)[i])) == multiset(Names(Groups(p)[i])) - multiset{n}
    ensures forall i :: 0 <= i < |Groups(p)| && n !in Names(Groups(p)[i]) ==> Groups(r)[i] == Groups(p)[i]
    ensures forall i :: 0 <= i < |Groups(p)| ==> CutFirst(Names(Groups(p)[i]), n, Names(Groups(r)[i]))
  {
    match p.syscalls
    case None => p
    case Some(gs) =>
      var rs := seq(|gs|, i requires 0 <= i < |gs| => RemoveInGroup(gs[i], n));
      assert forall i :: 0 <= i < |gs| ==> rs[i] == RemoveInGroup(gs[i], n);
      RemoveEach(gs, rs, n);
      p.(syscalls := Some(rs))
  }

  lemma RemoveEach(gs: seq<Group>, rs: seq<Group>, n: string)
    requires |rs| == |gs|
    requires forall i :: 0 <= i < |gs| ==> rs[i] == RemoveInGroup(gs[i], n)
    ensures forall i :: 0 <= i < |gs| ==>
      multiset(Names(rs[i])) == multiset(Names(gs[i])) - multiset{n}
    ensures forall i :: 0 <= i < |gs| && n !in Names(gs[i]) ==> rs[i] == gs[i]
    ensures forall i :: 0 <= i < |gs| ==> CutFirst(Names(gs[i]), n, Names(rs[i]))
  {
    forall i | 0 <= i < |gs|
      ensures multiset(Names(rs[i])) == multiset(Names(gs[i])) - multiset{n}
    {
      RemoveFirstCount(Names(gs[i]), n);
      if n !in Names(gs[i]) {
        assert n !in multiset(Names(gs[i]));
      }
    }
  }

  lemma GroupOfRemove(p: Profile, n: string, i: int)
    requires 0 <= i < |Groups(p)|
    ensures Groups(RemoveSyscall(p, n))[i] == RemoveInGroup(Groups(p)[i], n)
  {
  }

  /** Removing a name never adds one: each group keeps a sub-multiset of its names. */
  lemma RemoveInGroupShrinks(g: Group, n: string)
    ensures Elems(Names(RemoveInGroup(g, n))) <= Elems(Names(g))
  {
    var r := Names(RemoveInGroup(g, n));
    RemoveFirstCount(Names(g), n);
    forall x | x in Elems(r) ensures x in Elems(Names(g)) {
      assert x in multiset(r);
    }
  }

  /**
   * What removal does to the name set: it can only shrink, and when no group
   * repeats a name it loses exactly that name and stays repeat-free.
   */
  lemma RemoveNameSet(p: Profile, n: string)
    ensures NameSet(RemoveSyscall(p, n)) <= NameSet(p)
    ensures NoDupGroups(p) ==>
      NoDupGroups(RemoveSyscall(p, n)) && NameSet(RemoveSyscall(p, n)) == NameSet(p) - {n}
  {
    RemoveKeepsOnly(p, n);
    if NoDupGroups(p) {
      RemoveKeepsNoDup(p, n);
      RemoveKeepsOthers(p, n);
    }
  }

  lemma RemoveKeepsOnly(p: Profile, n: string)
    ensures NameSet(RemoveSyscall(p, n)) <= NameSet(p)
    ensures NoDupGroups(p) ==> n !in NameSet(RemoveSyscall(p, n))
  {
    forall x | x in NameSet(RemoveSyscall(p, n))
      ensures x in NameSet(p) && (NoDupGroups(p) ==> x != n)
    {
      KeepsOnly(p, n, x);
    }
  }

  lemma KeepsOnly(p: Profile, n: string, x: string)
    requires x in NameSet(RemoveSyscall(p, n))
    ensures x in NameSet(p) && (NoDupGroups(p) ==> x != n)
  {
    var gs, rs := Groups(p), Groups(RemoveSyscall(p, n));
    var g :| g in rs && x in Names(g);
    var i :| 0 <= i < |rs| && rs[i] == g;
    GroupOfRemove(p, n, i);
    RemoveInGroupShrinks(gs[i], n);
    assert x in Elems(Names(g));
    assert gs[i] in gs;
  }

  lemma RemoveKeepsNoDup(p: Profile, n: string)
    requires NoDupGroups(p)
    ensures NoDupGroups(RemoveSyscall(p, n))
  {
  }

  lemma RemoveKeepsOthers(p: Profile, n: string)
    requires NoDupGroups(p)
    ensures NameSet(p) - {n} <= NameSet(RemoveSyscall(p, n))
  {
    forall x | x in NameSet(p) && x != n ensures x in NameSet(RemoveSyscall(p, n)) {
      KeepsOther(p, n, x);
    }
  }

  /** Removing one name keeps every other listed name, repeats or not. */
  lemma KeepsOther(p: Profile, n: string, x: string)
    requires x in NameSet(p) && x != n
    ensures x in NameSet(RemoveSyscall(p, n))
  {
    var gs, rs := Groups(p), Groups(RemoveSyscall(p, n));
    var g :| g in gs && x in Names(g);
    var i :| 0 <= i < |gs| && gs[i] == g;
    GroupOfRemove(p, n, i);
    KeepsOtherInGroup(g, n, x);
    assert rs[i] in rs;
  }

  lemma KeepsOtherInGroup(g: Group, n: string, x: string)
    requires x in Names(g) && x != n
    ensures x in Names(RemoveInGroup(g, n))
  {
    RemoveFirstCount(Names(g), n);
    assert x in multiset(Names(g));
    assert x in multiset(Names(RemoveInGroup(g, n)));
  }

  /** Removing a name the profile does not list returns the profile unchanged. */
  lemma RemoveAbsent(p: Profile, n: string)
    requires n !in NameSet(p)
    ensures RemoveSyscall(p, n) == p
  {
    match p.syscalls
    case None =>
    case Some(gs) =>
      var rs := Groups(RemoveSyscall(p, n));
      forall i | 0 <= i < |gs| ensures rs[i] == gs[i] {
        GroupOfRemove(p, n, i);
        assert gs[i] in gs;
        assert n !in Names(gs[i]);
      }
      assert rs == gs;
  }

  /** With no name repeated inside a group, removing the same name twice is removing it once. */
  lemma RemoveIdempotent(p: Profile, n: string)
    requires NoDupGroups(p)
    ensures RemoveSyscall(RemoveSyscall(p, n), n) == RemoveSyscall(p, n)
  {
    RemoveNameSet(p, n);
    RemoveAbsent(RemoveSyscall(p, n), n);
  }

  /**
   * With no name repeated inside a group, the flattening of the trimmed
   * profile is the old flattening with that one name taken out.
   */
  lemma RemoveFlattened(p: Profile, n: string)
    requires NoDupGroups(p)
    ensures AllSyscalls(RemoveSyscall(p, n)) == RemoveFirst(AllSyscalls(p), n)
    ensures n !in AllSyscalls(RemoveSyscall(p, n))
  {
    var s := AllSyscalls(p);
    RemoveNameSet(p, n);
    SortedDistinct(s);
    RemoveFirstDistinct(s, n);
    RemoveFirstSorted(s, n);
    AllSyscallsCanonical(RemoveSyscall(p, n), RemoveFirst(s, n));
    assert n !in Elems(AllSyscalls(RemoveSyscall(p, n)));
  }

  lemma {:induction false} RemoveFirstSorted(s: seq<string>, n: string)
    requires StrictlySorted(s)
    ensures StrictlySorted(RemoveFirst(s, n))
  {
    if |s| > 0 {
      TailSorted(s);
      if s[0] != n {
        RemoveFirstSorted(s[1..], n);
        HeadBelowTail(s);
        RemoveFirstSubset(s[1..], n);
        ConsSorted(s[0], RemoveFirst(s[1..], n));
      }
    }
  }

  /**
   * A group that repeats a name keeps it after one removal (`list.remove`
   * drops one occurrence), so without the no-repeat condition removal is not
   * idempotent.
   */
  lemma RepeatedNameSurvivesRemoval()
    ensures var p := Profile(map[], Some([Group(Some(["kill", "kill"]), map["action" := "\"SCMP_ACT_ALLOW\""])]));
      && "kill" in NameSet(RemoveSyscall(p, "kill"))
      && RemoveSyscall(RemoveSyscall(p, "kill"), "kill") != RemoveSyscall(p, "kill")
  {
    var p := Profile(map[], Some([Group(Some(["kill", "kill"]), map["action" := "\"SCMP_ACT_ALLOW\""])]));
    GroupOfRemove(p, "kill", 0);
    var once := RemoveSyscall(p, "kill");
    assert Names(Groups(once)[0]) == ["kill"];
    assert Groups(once)[0] in Groups(once);
    GroupOfRemove(once, "kill", 0);
    assert Names(Groups(RemoveSyscall(once, "kill"))[0]) == [];
  }
}
