/**
 * The part of Ansible's inventory that the plugin writes to: groups, hosts
 * in the order they were added, each host's variables, and each group's
 * member hosts in the order they were added.  Adding a group or host that
 * exists already, or a member a group already has, changes nothing.
 */
module AnsibleInventory {

  predicate Distinct(s: seq<string>) {
    forall i, j :: 0 <= i < j < |s| ==> s[i] != s[j]
  }

  /** Append `x` unless it is already there (a Python list used as an ordered set). */
  function AppendNew(s: seq<string>, x: string): (r: seq<string>)
    ensures forall y :: y in r <==> y in s || y == x
    ensures Distinct(s) ==> Distinct(r)
    ensures |s| <= |r| && r[..|s|] == s
  {
    if x in s then s else s + [x]
  }

  /** `AppendNew` of each element of `xs`, in order. */
  function AppendAll(s: seq<string>, xs: seq<string>): (r: seq<string>)
    ensures forall y :: y in r <==> y in s || y in xs
    ensures Distinct(s) ==> Distinct(r)
    ensures |s| <= |r| && r[..|s|] == s
    decreases |xs|
  {
    if xs == [] then s
    else
      var r := AppendAll(AppendNew(s, xs[0]), xs[1..]);
      assert forall y :: y in xs <==> y == xs[0] || y in xs[1..];
      r
  }

  /** When nothing in `xs` repeats or is already present, everything is appended in order. */
  lemma {:induction false} AppendAllFresh(s: seq<string>, xs: seq<string>)
    requires Distinct(s + xs)
    ensures AppendAll(s, xs) == s + xs
    decreases |xs|
  {
    if xs != [] {
      assert (s + xs)[|s|] == xs[0];
      assert xs[0] !in s by {
        forall i | 0 <= i < |s| ensures s[i] != xs[0] {
          assert (s + xs)[i] == s[i];
        }
      }
      assert s + xs == (s + [xs[0]]) + xs[1..];
      AppendAllFresh(s + [xs[0]], xs[1..]);
    }
  }

  /** Distinct elements appended to an empty sequence come out as they went in. */
  lemma AppendAllToEmpty(xs: seq<string>)
    requires Distinct(xs)
    ensures AppendAll([], xs) == xs
  {
    assert [] + xs == xs;
    AppendAllFresh([], xs);
  }

  /** A snapshot of the inventory's fields. */
  datatype InventoryState<V> = InventoryState(
    groups: set<string>,
    hosts: seq<string>,
    vars: map<string, map<string, V>>,
    children: map<string, seq<string>>)
  {
    /** Hosts are unique and each has a variable table; each group has a unique list of known hosts. */
    ghost predicate Valid() {
      && Distinct(hosts)
      && (forall h :: h in vars <==> h in hosts)
      && children.Keys == groups
      && (forall g :: g in children ==> Distinct(children[g]))
      && (forall g, h :: g in children && h in children[g] ==> h in hosts)
    }

    /** `add_group`: a new group starts without members; an existing one is left as it is. */
    function AddGroup(name: string): (r: InventoryState<V>)
      ensures r.hosts == hosts && r.vars == vars
      ensures r.groups == groups + {name}
      ensures name !in groups ==> r.children == children[name := []]
      ensures name in groups ==> r == this
    {
      if name in groups then this
      else this.(groups := groups + {name}, children := children[name := []])
    }

    /** `add_host`: a new host starts with an empty variable table; an existing one is left as it is. */
    function AddHost(name: string): (r: InventoryState<V>)
      ensures r.groups == groups && r.children == children
      ensures r.hosts == AppendNew(hosts, name)
      ensures name !in hosts ==> r.vars == vars[name := map[]]
      ensures name in hosts ==> r == this
    {
      if name in hosts then this
      else this.(hosts := hosts + [name], vars := vars[name := map[]])
    }

    /** A host's variables, none if it has no table. */
    function VarsOf(host: string): map<string, V> {
      if host in vars then vars[host] else map[]
    }

    /** The variables of a host; none for a name that is not a host yet. */
    function HostVars(host: string): map<string, V> {
      if host in hosts then VarsOf(host) else map[]
    }

    /** A group's member hosts, none if there is no such group. */
    function MembersOf(group: string): seq<string> {
      if group in children then children[group] else []
    }

    /** `set_variable`: one variable of one host takes the value; nothing else changes. */
    function SetVariable(host: string, key: string, value: V): (r: InventoryState<V>)
      ensures r.groups == groups && r.hosts == hosts && r.children == children
      ensures host in r.vars && r.vars[host].Keys == VarsOf(host).Keys + {key} && r.vars[host][key] == value
      ensures forall k :: k in VarsOf(host) && k != key ==> r.vars[host][k] == VarsOf(host)[k]
      ensures forall h :: h != host ==> (h in r.vars <==> h in vars) && (h in vars ==> r.vars[h] == vars[h])
    {
      this.(vars := vars[host := VarsOf(host)[key := value]])
    }

    /** The effect of `SetVariable` for every pair of `data`, in any order. */
    function SetVariables(host: string, data: map<string, V>): (r: InventoryState<V>)
      ensures r.groups == groups && r.hosts == hosts && r.children == children
      ensures host in r.vars && r.vars[host].Keys == VarsOf(host).Keys + data.Keys
      ensures forall k :: k in data ==> r.vars[host][k] == data[k]
      ensures forall k :: k in VarsOf(host) && k !in data ==> r.vars[host][k] == VarsOf(host)[k]
      ensures forall h :: h != host ==> (h in r.vars <==> h in vars) && (h in vars ==> r.vars[h] == vars[h])
    {
      this.(vars := vars[host := VarsOf(host) + data])
    }

    /** `add_child`: the host joins the group's members unless it is one already. */
    function AddChild(group: string, host: string): (r: InventoryState<V>)
      ensures r.groups == groups && r.hosts == hosts && r.vars == vars
      ensures r.children.Keys == children.Keys + {group}
      ensures r.children[group] == AppendNew(MembersOf(group), host)
      ensures forall g :: g in children && g != group ==> r.children[g] == children[g]
    {
      this.(children := children[group := AppendNew(MembersOf(group), host)])
    }
  }

  /**
   * A new or existing host, the pairs of `data` as its variables, and its
   * membership of `group`.
   */
  function AddHostWithVariables<V>(st: InventoryState<V>, group: string, host: string, data: map<string, V>)
    : (r: InventoryState<V>)
    ensures r.groups == st.groups
    ensures r.hosts == AppendNew(st.hosts, host)
    ensures r.children == st.children[group := AppendNew(st.MembersOf(group), host)]
    ensures r.vars == st.vars[host := st.HostVars(host) + data]
  {
    var added := st.AddHost(host);
    assert added.VarsOf(host) == st.HostVars(host);
    assert added.vars[host := st.HostVars(host) + data] == st.vars[host := st.HostVars(host) + data];
    var withVars := added.SetVariables(host, data);
    assert withVars.MembersOf(group) == st.MembersOf(group);
    withVars.AddChild(group, host)
  }

  function Empty<V>(): InventoryState<V> {
    InventoryState({}, [], map[], map[])
  }

  lemma EmptyValid<V>()
    ensures Empty<V>().Valid()
  {
  }

  lemma AddGroupValid<V>(st: InventoryState<V>, group: string)
    requires st.Valid()
    ensures st.AddGroup(group).Valid() && group in st.AddGroup(group).children
  {
  }

  lemma AddHostValid<V>(st: InventoryState<V>, host: string)
    requires st.Valid()
    ensures st.AddHost(host).Valid() && host in st.AddHost(host).vars
  {
    var s := st.AddHost(host);
    if host !in st.hosts {
      assert forall i :: 0 <= i < |st.hosts| ==> s.hosts[i] == st.hosts[i];
    }
  }

  lemma SetVariablesValid<V>(st: InventoryState<V>, host: string, data: map<string, V>)
    requires st.Valid() && host in st.vars
    ensures st.SetVariables(host, data).Valid()
  {
  }

  lemma AddChildValid<V>(st: InventoryState<V>, group: string, host: string)
    requires st.Valid() && group in st.children && host in st.hosts
    ensures st.AddChild(group, host).Valid()
  {
  }

  /** Adding a host with its variables to a known group keeps the inventory well formed. */
  lemma AddHostWithVariablesValid<V>(st: InventoryState<V>, group: string, host: string, data: map<string, V>)
    requires st.Valid() && group in st.children
    ensures AddHostWithVariables(st, group, host, data).Valid()
  {
    AddHostValid(st, host);
    SetVariablesValid(st.AddHost(host), host, data);
    AddChildValid(st.AddHost(host).SetVariables(host, data), group, host);
  }

  /** The inventory object the plugin is handed, updated in place. */
  class InventoryData<V> {
    var groups: set<string>
    var hosts: seq<string>
    var vars: map<string, map<string, V>>
    var children: map<string, seq<string>>

    function State(): InventoryState<V>
      reads this
    {
      InventoryState(groups, hosts, vars, children)
    }

    constructor ()
      ensures State() == Empty()
    {
      groups, hosts, vars, children := {}, [], map[], map[];
    }

    /** `add_group`: returns the group's name. */
    method AddGroup(name: string) returns (group: string)
      modifies this
      ensures group == name
      ensures State() == old(State()).AddGroup(name)
    {
      if name !in groups {
        groups := groups + {name};
        children := children[name := []];
      }
      group := name;
    }

    /** `add_host` without a group. */
    method AddHost(name: string)
      modifies this
      ensures State() == old(State()).AddHost(name)
    {
      if name !in hosts {
        hosts := hosts + [name];
        vars := vars[name := map[]];
      }
    }

    /** `set_variable` on a known host. */
    method SetVariable(host: string, key: string, value: V)
      requires host in vars
      modifies this
      ensures State() == old(State()).SetVariable(host, key, value)
    {
      vars := vars[host := vars[host][key := value]];
    }

    /** `add_child` of a known host to a known group. */
    method AddChild(group: string, host: string)
      requires group in children && host in hosts
      modifies this
      ensures State() == old(State()).AddChild(group, host)
    {
      children := children[group := AppendNew(children[group], host)];
    }
  }
}
