/**
 * What a run of the plugin's host loop, and of `parse` as a whole, does to
 * the inventory: which hosts it adds and in which order, which variables
 * they get, which group they join, and what happens when a read or the
 * login fails.
 */
module InventoryVaultProperties {
  import opened VaultEnv
  import opened SecretPath
  import opened AnsibleInventory
  import opened InventoryVault

  /** Every leaf key's secret can be read. */
  predicate AllReadable<V>(secretPath: string, keys: seq<string>, payloads: map<string, map<string, V>>) {
    forall k :: k in keys && !IsFolder(k) ==> FetchPath(secretPath, k) in payloads
  }

  /** Folder keys (any key containing `/`) have no effect at all. */
  lemma {:induction false} PopulateIgnoresFolders<V>(st: InventoryState<V>, group: string, secretPath: string,
                                                      keys: seq<string>, payloads: map<string, map<string, V>>)
    ensures Populate(st, group, secretPath, keys, payloads) == Populate(st, group, secretPath, LeafKeys(keys), payloads)
    decreases |keys|
  {
    if keys != [] {
      var leaves := LeafKeys(keys);
      PopulateIgnoresFolders(st, group, secretPath, keys[1..], payloads);
      if !IsFolder(keys[0]) {
        assert leaves[1..] == LeafKeys(keys[1..]);
        var first := Step(st, group, secretPath, keys[0], payloads);
        if first.1.Pass? {
          PopulateIgnoresFolders(first.0, group, secretPath, keys[1..], payloads);
        }
      }
    }
  }

  /**
   * The loop completes exactly when every leaf key's secret can be read;
   * otherwise it reports the read of a leaf key that could not be done.
   */
  lemma {:induction false} PopulateOutcome<V>(st: InventoryState<V>, group: string, secretPath: string,
                                               keys: seq<string>, payloads: map<string, map<string, V>>)
    ensures Populate(st, group, secretPath, keys, payloads).1.Pass? <==> AllReadable(secretPath, keys, payloads)
    ensures Populate(st, group, secretPath, keys, payloads).1.Fail? ==>
      exists k :: k in keys && !IsFolder(k) && FetchPath(secretPath, k) !in payloads
        && Populate(st, group, secretPath, keys, payloads).1 == Fail(ReadFailed(FetchPath(secretPath, k)))
    decreases |keys|
  {
    if keys != [] {
      assert forall k :: k in keys <==> k == keys[0] || k in keys[1..];
      var first := Step(st, group, secretPath, keys[0], payloads);
      if first.1.Pass? {
        PopulateOutcome(first.0, group, secretPath, keys[1..], payloads);
      }
    }
  }

  /**
   * A failed read stops the loop there: the inventory keeps what the keys
   * before it added, and the error names the path that could not be read.
   */
  lemma {:induction false} PopulateStopsAtFirstFailedRead<V>(st: InventoryState<V>, group: string, secretPath: string,
                                                              keys: seq<string>, payloads: map<string, map<string, V>>, n: nat)
    requires n < |keys| && !IsFolder(keys[n]) && FetchPath(secretPath, keys[n]) !in payloads
    requires Populate(st, group, secretPath, keys[..n], payloads).1.Pass?
    ensures Populate(st, group, secretPath, keys, payloads)
         == (Populate(st, group, secretPath, keys[..n], payloads).0, Fail(ReadFailed(FetchPath(secretPath, keys[n]))))
    decreases n
  {
    if n > 0 {
      assert keys[..n][0] == keys[0] && keys[..n][1..] == keys[1..][..n - 1];
      var first := Step(st, group, secretPath, keys[0], payloads);
      PopulateStopsAtFirstFailedRead(first.0, group, secretPath, keys[1..], payloads, n - 1);
    }
  }

  /** Unfolding `LeafKeys` at a leaf key. */
  lemma LeafKeysCons(keys: seq<string>)
    requires keys != [] && !IsFolder(keys[0])
    ensures LeafKeys(keys) == [keys[0]] + LeafKeys(keys[1..])
  {
  }

  /** Unfolding `AppendAll` at its first element. */
  lemma AppendAllCons(s: seq<string>, x: string, xs: seq<string>)
    ensures AppendAll(s, [x] + xs) == AppendAll(AppendNew(s, x), xs)
  {
    assert ([x] + xs)[1..] == xs;
  }

  /** On success the hosts are the earlier ones followed by the new leaf keys, in listing order. */
  lemma {:induction false} PopulateHosts<V>(st: InventoryState<V>, group: string, secretPath: string,
                                             keys: seq<string>, payloads: map<string, map<string, V>>)
    requires Populate(st, group, secretPath, keys, payloads).1.Pass?
    ensures Populate(st, group, secretPath, keys, payloads).0.hosts == AppendAll(st.hosts, LeafKeys(keys))
    decreases |keys|
  {
    if keys != [] {
      var first := Step(st, group, secretPath, keys[0], payloads);
      PopulateHosts(first.0, group, secretPath, keys[1..], payloads);
      if !IsFolder(keys[0]) {
        StepAdds(st, group, secretPath, keys[0], payloads);
        LeafKeysCons(keys);
        AppendAllCons(st.hosts, keys[0], LeafKeys(keys[1..]));
      }
    }
  }

  /**
   * On success the group's members are the earlier ones followed by the new
   * leaf keys, in listing order; no other group changes.
   */
  lemma {:induction false} PopulateMembers<V>(st: InventoryState<V>, group: string, secretPath: string,
                                               keys: seq<string>, payloads: map<string, map<string, V>>)
    requires group in st.children
    requires Populate(st, group, secretPath, keys, payloads).1.Pass?
    ensures Populate(st, group, secretPath, keys, payloads).0.children
         == st.children[group := AppendAll(st.children[group], LeafKeys(keys))]
    decreases |keys|
  {
    if keys != [] {
      var first := Step(st, group, secretPath, keys[0], payloads);
      PopulateMembers(first.0, group, secretPath, keys[1..], payloads);
      if !IsFolder(keys[0]) {
        var c := st.children[group];
        assert first.0.children == st.children[group := AppendNew(c, keys[0])] by {
          StepAdds(st, group, secretPath, keys[0], payloads);
        }
        assert LeafKeys(keys) == [keys[0]] + LeafKeys(keys[1..]) by {
          LeafKeysCons(keys);
        }
        MembersStep(st.children, first.0.children, group, keys[0], LeafKeys(keys[1..]));
      }
    }
  }

  /** The members after one leaf key and then the rest of the listing. */
  lemma MembersStep(before: map<string, seq<string>>, mid: map<string, seq<string>>, group: string,
                    key: string, rest: seq<string>)
    requires group in before
    requires mid == before[group := AppendNew(before[group], key)]
    ensures mid[group := AppendAll(mid[group], rest)] == before[group := AppendAll(before[group], [key] + rest)]
  {
    AppendAllCons(before[group], key, rest);
  }

  /** Overriding with the same pairs twice is overriding once. */
  lemma MergeTwice<V>(a: map<string, V>, b: map<string, V>)
    ensures (a + b) + b == a + b
  {
  }

  /** A listed key that becomes a host. */
  predicate IsLeafOf(h: string, keys: seq<string>) {
    h in keys && !IsFolder(h)
  }

  /**
   * The variables of `r` are those of `st` after the secrets of the leaf
   * keys were read: each leaf key's earlier variables overridden by exactly
   * the pairs of its secret, read at `secret_path/key`; every other host's
   * unchanged; no other entry.
   */
  ghost predicate VarsAfter<V>(st: InventoryState<V>, r: InventoryState<V>, secretPath: string,
                               keys: seq<string>, payloads: map<string, map<string, V>>)
    requires AllReadable(secretPath, keys, payloads)
  {
    && (forall h :: h in r.vars <==> h in st.vars || IsLeafOf(h, keys))
    && (forall h :: IsLeafOf(h, keys) ==> r.vars[h] == st.HostVars(h) + payloads[FetchPath(secretPath, h)])
    && (forall h :: h in st.vars && !IsLeafOf(h, keys) ==> r.vars[h] == st.vars[h])
  }

  /** One host added with its secret's pairs, then the rest of the listing. */
  lemma VarsAfterLeaf<V>(st: InventoryState<V>, mid: InventoryState<V>, r: InventoryState<V>, secretPath: string,
                         k0: string, rest: seq<string>, payloads: map<string, map<string, V>>)
    requires AllReadable(secretPath, [k0] + rest, payloads) && !IsFolder(k0)
    requires mid.hosts == AppendNew(st.hosts, k0)
    requires mid.vars == st.vars[k0 := st.HostVars(k0) + payloads[FetchPath(secretPath, k0)]]
    requires VarsAfter(mid, r, secretPath, rest, payloads)
    ensures VarsAfter(st, r, secretPath, [k0] + rest, payloads)
  {
    var keys := [k0] + rest;
    var data := payloads[FetchPath(secretPath, k0)];
    assert forall k :: k in keys <==> k == k0 || k in rest;
    assert mid.HostVars(k0) == st.HostVars(k0) + data;
    forall h | IsLeafOf(h, keys)
      ensures r.vars[h] == st.HostVars(h) + payloads[FetchPath(secretPath, h)]
    {
      if h == k0 && IsLeafOf(k0, rest) {
        MergeTwice(st.HostVars(k0), data);
      } else if h != k0 {
        assert mid.HostVars(h) == st.HostVars(h);
      }
    }
  }

  /** A folder key, then the rest of the listing. */
  lemma VarsAfterFolder<V>(st: InventoryState<V>, r: InventoryState<V>, secretPath: string,
                           k0: string, rest: seq<string>, payloads: map<string, map<string, V>>)
    requires AllReadable(secretPath, [k0] + rest, payloads) && IsFolder(k0)
    requires VarsAfter(st, r, secretPath, rest, payloads)
    ensures VarsAfter(st, r, secretPath, [k0] + rest, payloads)
  {
    assert forall k :: IsLeafOf(k, [k0] + rest) <==> IsLeafOf(k, rest);
  }

  /** On success the variables are those `VarsAfter` describes. */
  lemma {:induction false} PopulateVars<V>(st: InventoryState<V>, group: string, secretPath: string,
                                            keys: seq<string>, payloads: map<string, map<string, V>>)
    requires AllReadable(secretPath, keys, payloads)
    ensures VarsAfter(st, Populate(st, group, secretPath, keys, payloads).0, secretPath, keys, payloads)
    decreases |keys|
  {
    if keys == [] {
    } else {
      var k0 := keys[0];
      var rest := keys[1..];
      assert keys == [k0] + rest;
      var first := Step(st, group, secretPath, k0, payloads);
      PopulateVars(first.0, group, secretPath, rest, payloads);
      var r := Populate(first.0, group, secretPath, rest, payloads).0;
      if IsFolder(k0) {
        VarsAfterFolder(st, r, secretPath, k0, rest, payloads);
      } else {
        StepAdds(st, group, secretPath, k0, payloads);
        VarsAfterLeaf(st, first.0, r, secretPath, k0, rest, payloads);
      }
    }
  }

  /** Adding what is already present changes nothing. */
  lemma {:induction false} AppendAllPresent(s: seq<string>, xs: seq<string>)
    requires forall x :: x in xs ==> x in s
    ensures AppendAll(s, xs) == s
    decreases |xs|
  {
    if xs != [] {
      assert xs[0] in s;
      AppendAllPresent(s, xs[1..]);
    }
  }

  /** Reading the same secrets into hosts that already hold them changes no variable. */
  lemma VarsAfterTwice<V>(st: InventoryState<V>, once: InventoryState<V>, twice: InventoryState<V>,
                          secretPath: string, keys: seq<string>, payloads: map<string, map<string, V>>)
    requires AllReadable(secretPath, keys, payloads)
    requires forall h :: IsLeafOf(h, keys) ==> h in once.hosts
    requires VarsAfter(st, once, secretPath, keys, payloads)
    requires VarsAfter(once, twice, secretPath, keys, payloads)
    ensures twice.vars == once.vars
  {
    forall h | h in twice.vars
      ensures h in once.vars && twice.vars[h] == once.vars[h]
    {
      if IsLeafOf(h, keys) {
        MergeTwice(st.HostVars(h), payloads[FetchPath(secretPath, h)]);
      }
    }
  }

  /** Running the loop a second time with the same listing and secrets changes nothing. */
  lemma PopulateIdempotent<V>(st: InventoryState<V>, group: string, secretPath: string,
                              keys: seq<string>, payloads: map<string, map<string, V>>)
    requires group in st.children
    requires Populate(st, group, secretPath, keys, payloads).1.Pass?
    ensures Populate(Populate(st, group, secretPath, keys, payloads).0, group, secretPath, keys, payloads)
         == Populate(st, group, secretPath, keys, payloads)
  {
    var once := Populate(st, group, secretPath, keys, payloads).0;
    var twice := Populate(once, group, secretPath, keys, payloads);
    var leaves := LeafKeys(keys);
    assert AllReadable(secretPath, keys, payloads) by {
      PopulateOutcome(st, group, secretPath, keys, payloads);
    }
    assert twice.1 == Pass by {
      PopulateOutcome(once, group, secretPath, keys, payloads);
    }
    assert forall h :: IsLeafOf(h, keys) ==> h in once.hosts by {
      PopulateHosts(st, group, secretPath, keys, payloads);
    }
    assert twice.0.hosts == once.hosts by {
      PopulateHosts(once, group, secretPath, keys, payloads);
      AppendAllPresent(once.hosts, leaves);
    }
    assert twice.0.children == once.children by {
      PopulateMembers(st, group, secretPath, keys, payloads);
      PopulateMembers(once, group, secretPath, keys, payloads);
      AppendAllPresent(once.children[group], leaves);
    }
    assert twice.0.vars == once.vars by {
      PopulateVars(st, group, secretPath, keys, payloads);
      PopulateVars(once, group, secretPath, keys, payloads);
      VarsAfterTwice(st, once, twice.0, secretPath, keys, payloads);
    }
  }

  /** With distinct leaf keys and no hosts yet, the hosts are the leaf keys in listing order. */
  lemma PopulateFreshHosts<V>(start: InventoryState<V>, group: string, secretPath: string, keys: seq<string>,
                              payloads: map<string, map<string, V>>)
    requires start.hosts == [] && Distinct(LeafKeys(keys))
    requires Populate(start, group, secretPath, keys, payloads).1.Pass?
    ensures Populate(start, group, secretPath, keys, payloads).0.hosts == LeafKeys(keys)
  {
    var leaves := LeafKeys(keys);
    AppendAllToEmpty(leaves);
    PopulateHosts(start, group, secretPath, keys, payloads);
  }

  /** With distinct leaf keys and a group without members, its members are the leaf keys in listing order. */
  lemma PopulateFreshMembers<V>(start: InventoryState<V>, group: string, secretPath: string, keys: seq<string>,
                                payloads: map<string, map<string, V>>)
    requires group in start.children && start.children[group] == [] && Distinct(LeafKeys(keys))
    requires Populate(start, group, secretPath, keys, payloads).1.Pass?
    ensures Populate(start, group, secretPath, keys, payloads).0.children == start.children[group := LeafKeys(keys)]
  {
    AppendAllToEmpty(LeafKeys(keys));
    PopulateMembers(start, group, secretPath, keys, payloads);
  }

  /** With no hosts yet, each host's variables are exactly its secret's pairs. */
  lemma PopulateFreshVars<V>(start: InventoryState<V>, group: string, secretPath: string, keys: seq<string>,
                             payloads: map<string, map<string, V>>)
    requires start.hosts == [] && start.vars == map[]
    requires AllReadable(secretPath, keys, payloads)
    ensures var r := Populate(start, group, secretPath, keys, payloads).0;
      && (forall h :: h in r.vars <==> h in LeafKeys(keys))
      && (forall h :: h in LeafKeys(keys) ==> r.vars[h] == payloads[FetchPath(secretPath, h)])
  {
    var r := Populate(start, group, secretPath, keys, payloads).0;
    PopulateVars(start, group, secretPath, keys, payloads);
    forall h | h in LeafKeys(keys)
      ensures r.vars[h] == payloads[FetchPath(secretPath, h)]
    {
      assert start.HostVars(h) == map[];
      assert map[] + payloads[FetchPath(secretPath, h)] == payloads[FetchPath(secretPath, h)];
    }
  }

  /**
   * `parse` on an empty inventory with a listing of distinct keys, all
   * readable: one group named after the secret path, whose members are
   * exactly the leaf keys in listing order, each host carrying exactly its
   * secret's pairs.
   */
  lemma ParseBuildsInventory<V>(env: Env, config: Config, login: Login, keys: seq<string>,
                                payloads: map<string, map<string, V>>)
    requires Prepare(env, config, login).Ok?
    requires Distinct(LeafKeys(keys))
    requires AllReadable(Prepare(env, config, login).value.secretPath, keys, payloads)
    ensures var path := Prepare(env, config, login).value.secretPath;
      var group := GroupName(path);
      var r := ParseSpec(Empty(), env, config, login, Some(keys), payloads);
      && r.1 == Pass
      && r.0.groups == {group}
      && r.0.hosts == LeafKeys(keys)
      && r.0.children == map[group := LeafKeys(keys)]
      && (forall h :: h in r.0.vars <==> h in LeafKeys(keys))
      && (forall h :: h in LeafKeys(keys) ==> r.0.vars[h] == payloads[FetchPath(path, h)])
  {
    var path := Prepare(env, config, login).value.secretPath;
    var group := GroupName(path);
    var start := Empty<V>().AddGroup(group);
    assert start == InventoryState({group}, [], map[], map[group := []]);
    assert map[group := []][group := LeafKeys(keys)] == map[group := LeafKeys(keys)];
    PopulateOutcome(start, group, path, keys, payloads);
    PopulateFreshHosts(start, group, path, keys, payloads);
    PopulateFreshMembers(start, group, path, keys, payloads);
    PopulateFreshVars(start, group, path, keys, payloads);
  }

  /**
   * A session that is not authenticated after login stops `parse` with
   * Unauthorized before any group or host is added.
   */
  lemma UnauthorizedAddsNothing<V>(st: InventoryState<V>, env: Env, config: Config, login: Login,
                                   listing: Option<seq<string>>, payloads: map<string, map<string, V>>)
    requires ResolveSettings(env, config).Ok? && SelectCredentials(env).Ok?
    requires !login(env[VaultAddr], SelectCredentials(env).value)
    ensures ParseSpec(st, env, config, login, listing, payloads) == (st, Fail(Unauthorized(MsgUnauthorized)))
  {
    RejectedLoginIsUnauthorized(env, config, login);
  }

  /**
   * The group is added before the listing is asked for: when the listing
   * fails, the group is there and nothing else has changed.
   */
  lemma GroupAddedBeforeListing<V>(st: InventoryState<V>, env: Env, config: Config, login: Login,
                                   payloads: map<string, map<string, V>>)
    requires Prepare(env, config, login).Ok?
    ensures var path := Prepare(env, config, login).value.secretPath;
      ParseSpec(st, env, config, login, None, payloads) == (st.AddGroup(GroupName(path)), Fail(ListFailed(path)))
  {
  }
}
