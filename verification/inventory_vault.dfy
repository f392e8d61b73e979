/**
 * `InventoryModule.parse` of the inventory_vault plugin: after the checks
 * and the login (`VaultEnv.Prepare`), add a group named after the secret
 * path, list the keys under that path and make every leaf key a host of the
 * group carrying the key/value pairs of its secret.
 *
 * The Vault responses are inputs: `listing` is the `keys` of the
 * `list_secrets` response, or `None` when that call raised; `payloads` maps
 * each readable path to the `data` of its latest secret version, and a path
 * missing from it is one whose `read_secret_version` raised.
 */
module InventoryVault {
  import opened VaultEnv
  import opened SecretPath
  import opened AnsibleInventory

  /** A listed key naming a sub-folder rather than a secret. */
  predicate IsFolder(key: string) {
    '/' in key
  }

  /** The path a host's secret is read from. */
  function FetchPath(secretPath: string, key: string): string {
    secretPath + "/" + key
  }

  /** The listed keys that become hosts, in listing order. */
  function LeafKeys(keys: seq<string>): (leaves: seq<string>)
    ensures forall k :: k in leaves <==> k in keys && !IsFolder(k)
    ensures |leaves| <= |keys|
    decreases |keys|
  {
    if keys == [] then []
    else
      var rest := LeafKeys(keys[1..]);
      assert forall k :: k in keys <==> k == keys[0] || k in keys[1..];
      if IsFolder(keys[0]) then rest else [keys[0]] + rest
  }

  /** A single listed key is kept exactly when it is not a folder. */
  lemma LeafKeysOne(key: string)
    ensures LeafKeys([key]) == if IsFolder(key) then [] else [key]
  {
    assert [key][1..] == [];
  }

  /**
   * Filtering a listing is filtering its parts in turn; with `LeafKeysOne`
   * this fixes the result as the leaf keys in listing order.
   */
  lemma {:induction false} LeafKeysAppend(a: seq<string>, b: seq<string>)
    ensures LeafKeys(a + b) == LeafKeys(a) + LeafKeys(b)
    decreases |a|
  {
    if a != [] {
      assert (a + b)[0] == a[0];
      assert (a + b)[1..] == a[1..] + b;
      LeafKeysAppend(a[1..], b);
    } else {
      assert a + b == b;
    }
  }

  /** One iteration of the `for hosts in list_of_hosts` loop. */
  function Step<V>(st: InventoryState<V>, group: string, secretPath: string, key: string,
                   payloads: map<string, map<string, V>>): (r: (InventoryState<V>, Outcome))
    ensures r.0.groups == st.groups
    ensures r.1.Fail? ==> r.0 == st
  {
    if IsFolder(key) then (st, Pass)
    else if FetchPath(secretPath, key) !in payloads then (st, Fail(ReadFailed(FetchPath(secretPath, key))))
    else (AddHostWithVariables(st, group, key, payloads[FetchPath(secretPath, key)]), Pass)
  }

  /** What one iteration does with a leaf key whose secret can be read. */
  lemma StepAdds<V>(st: InventoryState<V>, group: string, secretPath: string, key: string,
                    payloads: map<string, map<string, V>>)
    requires !IsFolder(key) && FetchPath(secretPath, key) in payloads
    ensures var r := Step(st, group, secretPath, key, payloads);
      && r.1 == Pass
      && r.0.groups == st.groups
      && r.0.hosts == AppendNew(st.hosts, key)
      && r.0.children == st.children[group := AppendNew(st.MembersOf(group), key)]
      && r.0.vars == st.vars[key := st.HostVars(key) + payloads[FetchPath(secretPath, key)]]
  {
  }

  /** The whole loop: the steps in listing order, stopping at the first failure. */
  function Populate<V>(st: InventoryState<V>, group: string, secretPath: string, keys: seq<string>,
                       payloads: map<string, map<string, V>>): (r: (InventoryState<V>, Outcome))
    ensures r.0.groups == st.groups
    decreases |keys|
  {
    if keys == [] then (st, Pass)
    else
      var first := Step(st, group, secretPath, keys[0], payloads);
      if first.1.Fail? then first
      else Populate(first.0, group, secretPath, keys[1..], payloads)
  }

  /** The loop keeps a well-formed inventory well formed. */
  lemma {:induction false} PopulateValid<V>(st: InventoryState<V>, group: string, secretPath: string, keys: seq<string>,
                                             payloads: map<string, map<string, V>>)
    requires st.Valid() && group in st.children
    ensures Populate(st, group, secretPath, keys, payloads).0.Valid()
    decreases |keys|
  {
    if keys != [] {
      var first := Step(st, group, secretPath, keys[0], payloads);
      if !IsFolder(keys[0]) && FetchPath(secretPath, keys[0]) in payloads {
        AddHostWithVariablesValid(st, group, keys[0], payloads[FetchPath(secretPath, keys[0])]);
      }
      if first.1.Pass? {
        PopulateValid(first.0, group, secretPath, keys[1..], payloads);
      }
    }
  }

  /**
   * Lines 155-156 of `parse`: `set_variable` for every key of the secret's
   * data, in whatever order the keys come.
   */
  method SetHostVariables<V>(inventory: InventoryData<V>, host: string, data: map<string, V>)
    requires host in inventory.vars
    modifies inventory
    ensures inventory.State() == old(inventory.State()).SetVariables(host, data)
  {
    ghost var base := inventory.vars[host];
    ghost var done: map<string, V> := map[];
    var remaining := data.Keys;
    assert base + done == base;
    while remaining != {}
      invariant remaining <= data.Keys
      invariant done.Keys == data.Keys - remaining
      invariant forall k :: k in done ==> done[k] == data[k]
      invariant inventory.groups == old(inventory.groups) && inventory.hosts == old(inventory.hosts)
      invariant inventory.children == old(inventory.children)
      invariant inventory.vars == old(inventory.vars)[host := base + done]
      decreases remaining
    {
      var name :| name in remaining;
      inventory.SetVariable(host, name, data[name]);
      UnionUpdate(base, done, name, data[name]);
      done := done[name := data[name]];
      remaining := remaining - {name};
    }
    assert done == data;
  }

  lemma UnionUpdate<V>(a: map<string, V>, b: map<string, V>, k: string, v: V)
    ensures (a + b)[k := v] == a + b[k := v]
  {
  }

  /** Lines 154-157 of `parse`: add the host, set its variables, make it a member of the group. */
  method AddSecretHost<V>(inventory: InventoryData<V>, group: string, host: string, data: map<string, V>)
    requires inventory.State().Valid() && group in inventory.children
    modifies inventory
    ensures inventory.State() == AddHostWithVariables(old(inventory.State()), group, host, data)
    ensures inventory.State().Valid()
  {
    AddHostWithVariablesValid(inventory.State(), group, host, data);
    AddHostValid(inventory.State(), host);
    inventory.AddHost(host);
    SetHostVariables(inventory, host, data);
    inventory.AddChild(group, host);
  }

  /**
   * Lines 147-157 of `parse`, on the inventory object: for each listed key
   * that is not a folder, read its secret, add the host, set each of the
   * secret's keys as a host variable and add the host to the group.
   */
  method AddHostsFromListing<V>(inventory: InventoryData<V>, group: string, secretPath: string,
                                keys: seq<string>, payloads: map<string, map<string, V>>)
    returns (outcome: Outcome)
    requires inventory.State().Valid() && group in inventory.children
    modifies inventory
    ensures (inventory.State(), outcome) == Populate(old(inventory.State()), group, secretPath, keys, payloads)
  {
    var i := 0;
    while i < |keys|
      invariant 0 <= i <= |keys|
      invariant inventory.State().Valid() && group in inventory.children
      invariant Populate(old(inventory.State()), group, secretPath, keys, payloads)
             == Populate(inventory.State(), group, secretPath, keys[i..], payloads)
    {
      var key := keys[i];
      ghost var before := inventory.State();
      ghost var step := Step(before, group, secretPath, key, payloads);
      assert keys[i..][1..] == keys[i + 1..];
      assert Populate(before, group, secretPath, keys[i..], payloads)
          == if step.1.Fail? then step else Populate(step.0, group, secretPath, keys[i + 1..], payloads);
      if '/' in key {
        i := i + 1;
        continue;
      }
      var path := secretPath + "/" + key;
      if path !in payloads {
        return Fail(ReadFailed(path));
      }
      AddSecretHost(inventory, group, key, payloads[path]);
      i := i + 1;
    }
    outcome := Pass;
  }

  /** `parse` as a function of the inventory before it and its inputs. */
  function ParseSpec<V>(st: InventoryState<V>, env: Env, config: Config, login: Login,
                        listing: Option<seq<string>>, payloads: map<string, map<string, V>>)
    : (r: (InventoryState<V>, Outcome))
    ensures Prepare(env, config, login).Err? ==> r == (st, Fail(Prepare(env, config, login).error))
    ensures Prepare(env, config, login).Ok? ==>
      r.0.groups == st.groups + {GroupName(Prepare(env, config, login).value.secretPath)}
  {
    match Prepare(env, config, login)
    case Err(e) => (st, Fail(e))
    case Ok(plan) =>
      var group := GroupName(plan.secretPath);
      var withGroup := st.AddGroup(group);
      match listing
      case None => (withGroup, Fail(ListFailed(plan.secretPath)))
      case Some(keys) => Populate(withGroup, group, plan.secretPath, keys, payloads)
  }

  /**
   * `parse`: the checks and the login, then the group, the listing and the
   * host loop.  The SSL probe before the login is not part of this model.
   */
  method Parse<V>(inventory: InventoryData<V>, env: Env, config: Config, login: Login,
                  listing: Option<seq<string>>, payloads: map<string, map<string, V>>)
    returns (outcome: Outcome)
    requires inventory.State().Valid()
    modifies inventory
    ensures (inventory.State(), outcome) == ParseSpec(old(inventory.State()), env, config, login, listing, payloads)
  {
    var prepared := Prepare(env, config, login);
    if prepared.Err? {
      return Fail(prepared.error);
    }
    var plan := prepared.value;
    AddGroupValid(inventory.State(), GroupName(plan.secretPath));
    var group := inventory.AddGroup(GroupName(plan.secretPath));
    if listing.None? {
      return Fail(ListFailed(plan.secretPath));
    }
    outcome := AddHostsFromListing(inventory, group, plan.secretPath, listing.value, payloads);
  }
}
