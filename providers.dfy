/**
 * Provider discovery and selection. The builder keeps per-plugin priority
 * overrides keyed by lower-cased plugin name. Discovery empties the provider
 * table and enters every registered economy under its plugin's lower-cased
 * name, with the override for that name or priority 1. Connecting discovers,
 * starts the query server, announces the connection and selects as active a
 * provider of highest priority (none when the table is empty).
 */
module Providers {
  import opened Wrappers

  /** Priority of a provider that has no override. */
  const DEFAULT_PRIORITY := 1
  /** Cause carried by the event published when discovery finds nothing. */
  const NO_PROVIDERS := "No economy providers found"

  /** An economy backend, known only by identity. */
  datatype Economy = Economy(id: nat)

  /** One registration of an economy service, as the host's service directory lists it. */
  datatype Registration = Registration(pluginName: string, provider: Economy)

  /** A provider table entry. */
  datatype EconomyWrapper = EconomyWrapper(economy: Economy, priority: int, activePlayers: int)

  /** The events the connection lifecycle publishes. */
  datatype VaultEvent = Connected | ConnectionFailed(cause: string)

  /** Lower-casing of one character (ASCII letters only). */
  function Lower(c: char): char {
    if 'A' <= c <= 'Z' then (c as int - 'A' as int + 'a' as int) as char else c
  }

  /** An ASCII upper-case letter. */
  predicate IsUpper(c: char) {
    'A' <= c <= 'Z'
  }

  /** Two characters equal up to ASCII letter case. */
  predicate SameIgnoringCase(c: char, d: char) {
    || c == d
    || (IsUpper(c) && d as int == c as int + ('a' as int - 'A' as int))
    || (IsUpper(d) && c as int == d as int + ('a' as int - 'A' as int))
  }

  /**
   * `String.toLowerCase`: the same characters up to case, with no upper-case
   * ASCII letter left.
   */
  function ToLowerCase(s: string): (r: string)
    ensures |r| == |s|
    ensures forall i :: 0 <= i < |r| ==> !IsUpper(r[i])
    ensures forall i :: 0 <= i < |s| ==> SameIgnoringCase(s[i], r[i])
  {
    seq(|s|, i requires 0 <= i < |s| => Lower(s[i]))
  }

  /**
   * Two names lower-case to the same key exactly when they have the same
   * length and differ only in the case of ASCII letters.
   */
  lemma SameKey(a: string, b: string)
    ensures ToLowerCase(a) == ToLowerCase(b) <==>
            |a| == |b| && forall i :: 0 <= i < |a| ==> SameIgnoringCase(a[i], b[i])
  {
    if ToLowerCase(a) == ToLowerCase(b) {
      forall i | 0 <= i < |a|
        ensures SameIgnoringCase(a[i], b[i])
      {
        assert ToLowerCase(a)[i] == ToLowerCase(b)[i];
      }
    }
    if |a| == |b| && forall i :: 0 <= i < |a| ==> SameIgnoringCase(a[i], b[i]) {
      forall i | 0 <= i < |a|
        ensures ToLowerCase(a)[i] == ToLowerCase(b)[i]
      {
        assert SameIgnoringCase(a[i], b[i]);
      }
    }
  }

  /** Lower-casing twice is lower-casing once, so lower-cased keys are stable. */
  lemma ToLowerCaseIdempotent(s: string)
    ensures ToLowerCase(ToLowerCase(s)) == ToLowerCase(s)
  {
  }

  /** `providerPriorities.getOrDefault(name, 1)`. */
  function PriorityFor(overrides: map<string, int>, name: string): int {
    if name in overrides then overrides[name] else DEFAULT_PRIORITY
  }

  /** The provider table after discovering the registrations in order. */
  function Discovered(registrations: seq<Registration>, overrides: map<string, int>): (table: map<string, EconomyWrapper>)
    ensures forall name :: name in table ==>
              table[name].priority == PriorityFor(overrides, name) && table[name].activePlayers == 0
    decreases |registrations|
  {
    if registrations == [] then map[]
    else
      var last := registrations[|registrations| - 1];
      var name := ToLowerCase(last.pluginName);
      Discovered(registrations[..|registrations| - 1], overrides)[name := EconomyWrapper(last.provider, PriorityFor(overrides, name), 0)]
  }

  /** The names discovery enters are exactly the lower-cased plugin names; none are found only if none are registered. */
  lemma {:induction false} DiscoveredNames(registrations: seq<Registration>, overrides: map<string, int>)
    ensures Discovered(registrations, overrides).Keys == set r | r in registrations :: ToLowerCase(r.pluginName)
    ensures Discovered(registrations, overrides) == map[] <==> registrations == []
    decreases |registrations|
  {
    if registrations != [] {
      var n := |registrations| - 1;
      var init := registrations[..n];
      DiscoveredNames(init, overrides);
      assert registrations == init + [registrations[n]];
      assert ToLowerCase(registrations[n].pluginName) in Discovered(registrations, overrides);
    }
  }

  /**
   * Each discovered entry has the override for its name or priority 1, no
   * active players, and the economy of the LAST registration whose plugin
   * name lower-cases to that name (a later registration replaces an earlier one).
   */
  lemma {:induction false} DiscoveredEntry(registrations: seq<Registration>, overrides: map<string, int>, name: string)
    requires name in Discovered(registrations, overrides)
    ensures var w := Discovered(registrations, overrides)[name];
            && w.priority == PriorityFor(overrides, name)
            && w.activePlayers == 0
            && exists i :: 0 <= i < |registrations| &&
                 ToLowerCase(registrations[i].pluginName) == name &&
                 registrations[i].provider == w.economy &&
                 forall j :: i < j < |registrations| ==> ToLowerCase(registrations[j].pluginName) != name
    decreases |registrations|
  {
    var n := |registrations| - 1;
    var init := registrations[..n];
    if ToLowerCase(registrations[n].pluginName) != name {
      DiscoveredEntry(init, overrides, name);
      var w := Discovered(registrations, overrides)[name];
      var i :| 0 <= i < |init| && ToLowerCase(init[i].pluginName) == name && init[i].provider == w.economy &&
               forall j :: i < j < |init| ==> ToLowerCase(init[j].pluginName) != name;
      assert registrations[i] == init[i];
      forall j | i < j < |registrations|
        ensures ToLowerCase(registrations[j].pluginName) != name
      {
        if j < n {
          assert registrations[j] == init[j];
        }
      }
    }
  }

  /**
   * An override registered under any spelling of a plugin's name applies to
   * every registration of that plugin, whatever its case.
   */
  lemma OverrideIgnoresCase(registrations: seq<Registration>, overrides: map<string, int>, spelling: string, priority: int, i: nat)
    requires i < |registrations|
    requires ToLowerCase(registrations[i].pluginName) == ToLowerCase(spelling)
    ensures var name := ToLowerCase(spelling);
            var table := Discovered(registrations, overrides[name := priority]);
            name in table && table[name].priority == priority
  {
    var name := ToLowerCase(spelling);
    DiscoveredNames(registrations, overrides[name := priority]);
    assert registrations[i] in registrations;
  }

  /** An entry of the provider table's entry stream. */
  type Entry = (string, EconomyWrapper)

  /**
   * `entries` lists every entry of `table` exactly once, in some order: the
   * stream over a concurrent hash map, whose order is unspecified.
   */
  ghost predicate IsEntryStream(entries: seq<Entry>, table: map<string, EconomyWrapper>) {
    && (forall i :: 0 <= i < |entries| ==> entries[i].0 in table && table[entries[i].0] == entries[i].1)
    && (forall name :: name in table ==> exists i :: 0 <= i < |entries| && entries[i].0 == name)
    && (forall i, j :: 0 <= i < j < |entries| ==> entries[i].0 != entries[j].0)
  }

  /** `name` is in the table with a priority no other entry exceeds. */
  ghost predicate IsTop(table: map<string, EconomyWrapper>, name: string) {
    name in table && forall other :: other in table ==> table[other].priority <= table[name].priority
  }

  /**
   * Position of the first entry of highest priority: where a stable sort by
   * descending priority puts its first element.
   */
  function FirstTop(entries: seq<Entry>): (k: nat)
    requires entries != []
    ensures k < |entries|
    ensures forall j :: 0 <= j < |entries| ==> entries[j].1.priority <= entries[k].1.priority
    ensures forall j :: 0 <= j < k ==> entries[j].1.priority < entries[k].1.priority
    decreases |entries|
  {
    if |entries| == 1 then 0
    else
      var k := FirstTop(entries[..|entries| - 1]);
      if entries[|entries| - 1].1.priority > entries[k].1.priority then |entries| - 1 else k
  }

  /** `selectActiveProvider` over the table's entry stream: sort by descending priority, take the first key. */
  function SelectActiveProvider(entries: seq<Entry>): (r: Option<string>)
    ensures r.None? <==> entries == []
    ensures r.Some? ==> exists k :: 0 <= k < |entries| && entries[k].0 == r.value &&
                          forall j :: 0 <= j < |entries| ==> entries[j].1.priority <= entries[k].1.priority
  {
    if entries == [] then None else Some(entries[FirstTop(entries)].0)
  }

  /**
   * Whatever order the table is streamed in, the selection is absent exactly
   * when the table is empty, and otherwise names a provider of highest priority.
   */
  lemma SelectionIsTop(table: map<string, EconomyWrapper>, entries: seq<Entry>)
    requires IsEntryStream(entries, table)
    ensures SelectActiveProvider(entries).None? <==> table == map[]
    ensures SelectActiveProvider(entries).Some? ==> IsTop(table, SelectActiveProvider(entries).value)
  {
  }

  /** The builder: only its provider-priority overrides feed the core. */
  class Builder {
    var providerPriorities: map<string, int>

    constructor ()
      ensures providerPriorities == map[]
    {
      providerPriorities := map[];
    }

    /** `providerPriority(pluginName, priority)`: record an override under the lower-cased name. */
    method ProviderPriority(pluginName: string, priority: int)
      modifies this
      ensures providerPriorities == old(providerPriorities)[ToLowerCase(pluginName) := priority]
    {
      providerPriorities := providerPriorities[ToLowerCase(pluginName) := priority];
    }
  }

  /**
   * The vault's provider state: the provider table, the active name, the
   * events published so far, and the one builder the vault hands out, which
   * `discoverProviders` reads its overrides from.
   */
  class Vault {
    const holder: Builder
    var providers: map<string, EconomyWrapper>
    var activeProviderName: Option<string>
    var published: seq<VaultEvent>

    /** Class loading: the holder gets a fresh builder with no overrides. */
    constructor ()
      ensures fresh(holder) && holder.providerPriorities == map[]
      ensures providers == map[] && activeProviderName == None && published == []
    {
      holder := new Builder();
      providers := map[];
      activeProviderName := None;
      published := [];
    }

    /**
     * `discoverProviders`: replace the table by the registrations, each under
     * its lower-cased name with the holder's override for it; announce a
     * failed connection if none was found.
     */
    method DiscoverProviders(registrations: seq<Registration>)
      modifies this
      ensures providers == Discovered(registrations, holder.providerPriorities)
      ensures activeProviderName == old(activeProviderName)
      ensures published == old(published) + (if registrations == [] then [ConnectionFailed(NO_PROVIDERS)] else [])
    {
      providers := map[];
      for i := 0 to |registrations|
        invariant providers == Discovered(registrations[..i], holder.providerPriorities)
        invariant activeProviderName == old(activeProviderName) && published == old(published)
      {
        var rsp := registrations[i];
        var pluginName := ToLowerCase(rsp.pluginName);
        var priority := PriorityFor(holder.providerPriorities, pluginName);
        providers := providers[pluginName := EconomyWrapper(rsp.provider, priority, 0)];
        assert registrations[..i + 1][..i] == registrations[..i];
      }
      assert registrations[..|registrations|] == registrations;
      DiscoveredNames(registrations, holder.providerPriorities);
      if providers == map[] {
        published := published + [ConnectionFailed(NO_PROVIDERS)];
      }
    }

    /**
     * `connect`, on whichever builder it is called: discover with the holder's
     * overrides, then schedule the backup task and start the query server;
     * if either fails (`serverStarts` false) the rest is abandoned. Otherwise announce the connection and make a provider of
     * highest priority active (none if the table is empty).
     */
    method Connect(registrations: seq<Registration>, serverStarts: bool)
      modifies this
      ensures providers == Discovered(registrations, holder.providerPriorities)
      ensures var discovery := old(published) + (if registrations == [] then [ConnectionFailed(NO_PROVIDERS)] else []);
              published == if serverStarts then discovery + [Connected] else discovery
      ensures !serverStarts ==> activeProviderName == old(activeProviderName)
      ensures serverStarts ==> (activeProviderName.None? <==> registrations == [])
      ensures serverStarts && activeProviderName.Some? ==> IsTop(providers, activeProviderName.value)
    {
      DiscoverProviders(registrations);
      if serverStarts {
        published := published + [Connected];
        var entries := EntryStream(providers);
        SelectionIsTop(providers, entries);
        DiscoveredNames(registrations, holder.providerPriorities);
        activeProviderName := SelectActiveProvider(entries);
      }
    }
  }

  /** The table's entries in whatever order its iteration produces. */
  method EntryStream(table: map<string, EconomyWrapper>) returns (entries: seq<Entry>)
    ensures IsEntryStream(entries, table)
  {
    entries := [];
    var rest := table.Keys;
    while rest != {}
      invariant rest <= table.Keys
      invariant forall i :: 0 <= i < |entries| ==> entries[i].0 in table.Keys - rest && table[entries[i].0] == entries[i].1
      invariant forall name :: name in table.Keys - rest ==> exists i :: 0 <= i < |entries| && entries[i].0 == name
      invariant forall i, j :: 0 <= i < j < |entries| ==> entries[i].0 != entries[j].0
      decreases rest
    {
      var name :| name in rest;
      var before, unseen := entries, rest;
      entries := entries + [(name, table[name])];
      rest := rest - {name};
      forall seen | seen in table.Keys - rest
        ensures exists i :: 0 <= i < |entries| && entries[i].0 == seen
      {
        if seen == name {
          assert entries[|before|].0 == seen;
        } else {
          assert seen in table.Keys - unseen;
          var i :| 0 <= i < |before| && before[i].0 == seen;
          assert entries[i].0 == seen;
        }
      }
    }
    assert table.Keys - rest == table.Keys;
  }
}
