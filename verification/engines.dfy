/** `engineDistribution` (src/App.tsx): the teams grouped by engine in a plain object,
    `(acc[team.engine] = acc[team.engine] || []).push(team)` for each team in turn, and
    listed with `Object.entries`. An array is truthy even when empty, so `acc[e] || []`
    is the existing group whenever there is one. */
module Engines {
  import opened Wrappers
  import opened Seqs
  import opened JsObject
  import opened F1Types

  /** The engine of every team, in dataset order. */
  function EnginesOf(teams: seq<Team>): (es: seq<string>)
    ensures |es| == |teams| && forall i :: 0 <= i < |teams| ==> es[i] == teams[i].engine
  {
    seq(|teams|, i requires 0 <= i < |teams| => teams[i].engine)
  }

  /** The reference grouping: the teams with engine `e`, in dataset order. */
  function TeamsWithEngine(teams: seq<Team>, e: string): seq<Team> {
    if |teams| == 0 then []
    else
      var init, t := teams[..|teams| - 1], teams[|teams| - 1];
      TeamsWithEngine(init, e) + (if t.engine == e then [t] else [])
  }

  /** The group of `e` holds exactly the teams with that engine, as many as there are. */
  lemma {:induction false} TeamsWithEngineMembers(teams: seq<Team>, e: string)
    ensures forall t :: t in TeamsWithEngine(teams, e) <==> t in teams && t.engine == e
    ensures |TeamsWithEngine(teams, e)| == multiset(EnginesOf(teams))[e]
  {
    if |teams| > 0 {
      var init, t := teams[..|teams| - 1], teams[|teams| - 1];
      TeamsWithEngineMembers(init, e);
      assert teams == init + [t];
      TeamsWithEngineAppend(init, t, e);
      EnginesOfAppend(init, t);
      assert multiset(EnginesOf(teams)) == multiset(EnginesOf(init)) + multiset{t.engine};
    }
  }

  /** `d` groups `teams` by engine: one key per engine in use, in order of first use,
      holding the teams with that engine in dataset order. */
  ghost predicate IsGroupingOf(d: Dict<string, seq<Team>>, teams: seq<Team>) {
    && Valid(d)
    && (forall e :: e in d.values <==> e in EnginesOf(teams))
    && (forall e :: e in d.values ==> d.values[e] == TeamsWithEngine(teams, e))
    && InOrderOf(d.keys, EnginesOf(teams))
  }

  /** The `teams.reduce(...)`. */
  function GroupByEngine(teams: seq<Team>): (d: Dict<string, seq<Team>>)
    ensures IsGroupingOf(d, teams)
  {
    if |teams| == 0 then Empty()
    else
      var init, t := teams[..|teams| - 1], teams[|teams| - 1];
      var acc := GroupByEngine(init);
      GroupStep(teams, acc);
      Put(acc, t.engine, Get(acc, t.engine).ValueOr([]) + [t])
  }

  /** One more step of the reduce groups one more team. */
  lemma GroupStep(teams: seq<Team>, acc: Dict<string, seq<Team>>)
    requires |teams| > 0 && IsGroupingOf(acc, teams[..|teams| - 1])
    ensures var t := teams[|teams| - 1];
      IsGroupingOf(Put(acc, t.engine, Get(acc, t.engine).ValueOr([]) + [t]), teams)
  {
    var init, t := teams[..|teams| - 1], teams[|teams| - 1];
    var d := Put(acc, t.engine, Get(acc, t.engine).ValueOr([]) + [t]);
    assert teams == init + [t];
    assert EnginesOf(teams) == EnginesOf(init) + [t.engine];
    GroupStepValues(init, t, acc, d);
    PutKeepsFirstAppearance(EnginesOf(init), t.engine, acc, d);
  }

  lemma GroupStepValues(init: seq<Team>, t: Team, acc: Dict<string, seq<Team>>, d: Dict<string, seq<Team>>)
    requires forall e :: e in acc.values <==> e in EnginesOf(init)
    requires forall e :: e in acc.values ==> acc.values[e] == TeamsWithEngine(init, e)
    requires d.values == acc.values[t.engine := Get(acc, t.engine).ValueOr([]) + [t]]
    ensures forall e :: e in d.values <==> e in EnginesOf(init + [t])
    ensures forall e :: e in d.values ==> d.values[e] == TeamsWithEngine(init + [t], e)
  {
    var teams := init + [t];
    assert Get(acc, t.engine).ValueOr([]) == TeamsWithEngine(init, t.engine) by {
      if t.engine !in acc.values {
        TeamsWithEngineMembers(init, t.engine);
      }
    }
    EnginesOfAppend(init, t);
    forall e | e in d.values ensures d.values[e] == TeamsWithEngine(teams, e) {
      TeamsWithEngineAppend(init, t, e);
    }
  }

  lemma EnginesOfAppend(init: seq<Team>, t: Team)
    ensures EnginesOf(init + [t]) == EnginesOf(init) + [t.engine]
  {
  }

  lemma TeamsWithEngineAppend(init: seq<Team>, t: Team, e: string)
    ensures TeamsWithEngine(init + [t], e) == TeamsWithEngine(init, e) + (if t.engine == e then [t] else [])
  {
    assert (init + [t])[..|init|] == init;
  }

  /** `Object.entries(engineDistribution)`: engine and teams, in enumeration order. */
  function EngineDistribution(teams: seq<Team>): seq<(string, seq<Team>)> {
    Entries(GroupByEngine(teams), StringKeyIndex)
  }

  /** The engine of each group. */
  function GroupEngines(g: seq<(string, seq<Team>)>): (es: seq<string>)
    ensures |es| == |g| && forall i :: 0 <= i < |g| ==> es[i] == g[i].0
  {
    seq(|g|, i requires 0 <= i < |g| => g[i].0)
  }

  /** One group per engine in use, none repeated, each holding the teams with its engine. */
  lemma EngineGroups(teams: seq<Team>)
    ensures var g := EngineDistribution(teams);
      && (forall e :: e in GroupEngines(g) <==> e in EnginesOf(teams))
      && Distinct(GroupEngines(g))
      && (forall i :: 0 <= i < |g| ==> g[i].1 == TeamsWithEngine(teams, g[i].0))
  {
    ListedGroups(GroupByEngine(teams), teams);
  }

  /** The entries of a grouping: one per engine in use, none repeated, each its group. */
  lemma ListedGroups(d: Dict<string, seq<Team>>, teams: seq<Team>)
    requires IsGroupingOf(d, teams)
    ensures var g := Entries(d, StringKeyIndex);
      && (forall e :: e in GroupEngines(g) <==> e in EnginesOf(teams))
      && Distinct(GroupEngines(g))
      && (forall i :: 0 <= i < |g| ==> g[i].1 == TeamsWithEngine(teams, g[i].0))
  {
    var g := Entries(d, StringKeyIndex);
    var ks := OwnKeys(d.keys, StringKeyIndex);
    assert GroupEngines(g) == ks;
    forall e ensures e in ks <==> e in EnginesOf(teams) {
      assert e in ks <==> e in multiset(d.keys);
    }
  }

  /** The groups partition the teams: a team is in the group of its own engine and in no
      other, and no group is empty. */
  lemma EngineGroupsPartition(teams: seq<Team>)
    ensures var g := EngineDistribution(teams);
      && (forall i, t :: 0 <= i < |g| && t in teams ==> (t in g[i].1 <==> t.engine == g[i].0))
      && (forall i, t :: 0 <= i < |g| && t in g[i].1 ==> t in teams)
      && (forall i :: 0 <= i < |g| ==> |g[i].1| > 0)
      && (forall t :: t in teams ==> t.engine in GroupEngines(g))
  {
    EngineGroups(teams);
    GroupsPartition(EngineDistribution(teams), teams);
  }

  lemma GroupsPartition(g: seq<(string, seq<Team>)>, teams: seq<Team>)
    requires forall e :: e in GroupEngines(g) <==> e in EnginesOf(teams)
    requires forall i :: 0 <= i < |g| ==> g[i].1 == TeamsWithEngine(teams, g[i].0)
    ensures forall i, t :: 0 <= i < |g| && t in teams ==> (t in g[i].1 <==> t.engine == g[i].0)
    ensures forall i, t :: 0 <= i < |g| && t in g[i].1 ==> t in teams
    ensures forall i :: 0 <= i < |g| ==> |g[i].1| > 0
    ensures forall t :: t in teams ==> t.engine in GroupEngines(g)
  {
    forall i | 0 <= i < |g|
      ensures forall t :: t in g[i].1 <==> t in teams && t.engine == g[i].0
      ensures |g[i].1| > 0
    {
      TeamsWithEngineMembers(teams, g[i].0);
      assert g[i].0 in GroupEngines(g);
      assert multiset(EnginesOf(teams))[g[i].0] > 0;
    }
    forall t | t in teams ensures t.engine in GroupEngines(g) {
      var i :| 0 <= i < |teams| && teams[i] == t;
      assert EnginesOf(teams)[i] == t.engine;
    }
  }

  function GroupSize(e: (string, seq<Team>)): nat {
    |e.1|
  }

  /** The number of teams across the groups. */
  function TotalTeams(g: seq<(string, seq<Team>)>): nat {
    SumOf(g, GroupSize)
  }

  /** Every team is in exactly one group: the group sizes add up to the number of teams. */
  lemma EngineGroupsCoverTeams(teams: seq<Team>)
    ensures TotalTeams(EngineDistribution(teams)) == |teams|
  {
    EngineGroups(teams);
    GroupsCover(EngineDistribution(teams), teams);
  }

  lemma {:induction false} GroupsCover(g: seq<(string, seq<Team>)>, teams: seq<Team>)
    requires forall e :: e in GroupEngines(g) <==> e in EnginesOf(teams)
    requires Distinct(GroupEngines(g))
    requires forall i :: 0 <= i < |g| ==> g[i].1 == TeamsWithEngine(teams, g[i].0)
    ensures TotalTeams(g) == |teams|
  {
    var es := GroupEngines(g);
    forall i | 0 <= i < |g| ensures GroupSize(g[i]) == multiset(EnginesOf(teams))[es[i]] {
      TeamsWithEngineMembers(teams, es[i]);
    }
    SumOfCounts(g, GroupEngines(g), GroupSize, EnginesOf(teams));
    SumCountsCovers(GroupEngines(g), EnginesOf(teams));
  }

  /** Where `Object.entries` lists engine `a` before engine `b`: names that are array indices
      first, ascending, then the other names in order of first use. */
  predicate EngineBefore(engines: seq<string>, a: string, b: string) {
    var ia, ib := StringKeyIndex(a), StringKeyIndex(b);
    if ia.Some? && ib.Some? then ia.value < ib.value
    else if ia.Some? || ib.Some? then ia.Some?
    else FirstIndex(engines, a) < FirstIndex(engines, b)
  }

  /** The groups are listed in enumeration order. */
  lemma EngineGroupsOrder(teams: seq<Team>)
    ensures var g := EngineDistribution(teams);
      forall i, j :: 0 <= i < j < |g| ==> EngineBefore(EnginesOf(teams), g[i].0, g[j].0)
  {
    ListedInOrder(GroupByEngine(teams), teams);
  }

  lemma ListedInOrder(d: Dict<string, seq<Team>>, teams: seq<Team>)
    requires IsGroupingOf(d, teams)
    ensures var g := Entries(d, StringKeyIndex);
      forall i, j :: 0 <= i < j < |g| ==> EngineBefore(EnginesOf(teams), g[i].0, g[j].0)
  {
    var g := Entries(d, StringKeyIndex);
    var ks := OwnKeys(d.keys, StringKeyIndex);
    OwnKeysIndexFirst(d.keys, StringKeyIndex);
    OwnKeysPlainInOrder(d.keys, StringKeyIndex);
    forall k | k in ks ensures k in d.keys {
      assert k in multiset(d.keys);
    }
    KeysInEnumOrder(ks, d.keys, EnginesOf(teams));
    forall i, j | 0 <= i < j < |g| ensures EngineBefore(EnginesOf(teams), g[i].0, g[j].0) {
      assert g[i].0 == ks[i] && g[j].0 == ks[j];
    }
  }

  /** Keys placed as `Object.entries` places them are in `EngineBefore` order. */
  lemma KeysInEnumOrder(ks: seq<string>, keys: seq<string>, engines: seq<string>)
    requires Distinct(ks) && forall k :: k in ks ==> k in keys
    requires InOrderOf(keys, engines)
    requires forall i, j :: 0 <= i < j < |ks| && StringKeyIndex(ks[j]).Some? ==>
               StringKeyIndex(ks[i]).Some? && StringKeyIndex(ks[i]).value <= StringKeyIndex(ks[j]).value
    requires forall i, j :: 0 <= i < j < |ks| && StringKeyIndex(ks[i]).None? && StringKeyIndex(ks[j]).None? ==>
               FirstIndex(keys, ks[i]) < FirstIndex(keys, ks[j])
    ensures forall i, j :: 0 <= i < j < |ks| ==> EngineBefore(engines, ks[i], ks[j])
  {
    forall i, j | 0 <= i < j < |ks| ensures EngineBefore(engines, ks[i], ks[j]) {
      var a, b := ks[i], ks[j];
      if StringKeyIndex(a).Some? && StringKeyIndex(b).Some? {
        StringKeyIndexInjective(a, b);
      } else if StringKeyIndex(a).None? && StringKeyIndex(b).None? {
        assert a in keys && b in keys;
        var p, q := FirstIndex(keys, a), FirstIndex(keys, b);
        assert keys[p] == a && keys[q] == b;
      }
    }
  }
}
