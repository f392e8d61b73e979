# inventory_vault, modelled in Dafny

`inventory_vault` is an Ansible dynamic-inventory plugin
(`plugins/inventory/inventory_vault.py`). It builds an inventory from a
HashiCorp Vault KV v2 secret engine, in these steps:

1. `verify_file` accepts a configuration file by its name.
2. `parse` checks the environment (`VAULT_ADDR`, `VAULT_CACERT`) and the
   configuration (`vault_secret_path`).
3. It logs in with the first configured method, in the order token, AppRole,
   JWT, and rejects a session that is not authenticated.
4. It reads `vault_mount_point` and adds a group named after the last `/`
   segment of the secret path.
5. It lists the keys under that path. Each key without a `/` becomes a host.
   The host gets the key/value pairs of the secret stored at
   `secret_path/key` as variables and becomes a member of the group.

The model has five modules:

- `VaultEnv` (`vault_env.dfy`):
  - the variable names, configuration keys and error messages;
  - `verify_file`;
  - the environment and configuration checks and the choice of credentials;
  - the login, as an oracle `Login` that answers `is_authenticated()` for a
    URL and credentials;
  - `Prepare`, which covers `parse` up to and including
    `config['vault_mount_point']`.
- `SecretPath` (`secret_path.dfy`): Python's `str.split` with a
  one-character separator, and the group name `split('/')[-1]`.
- `AnsibleInventory` (`ansible_inventory.dfy`): the part of Ansible's
  inventory that the plugin writes to.
  - `InventoryData` is a class whose fields (groups, hosts in insertion
    order, host variables, group members in insertion order) its methods
    update in place.
  - `InventoryState` is a value snapshot of those fields, with one total
    function per update.
- `InventoryVault` (`inventory_vault.dfy`):
  - the host loop as a function (`Step`, `Populate`) and as a method with a
    loop invariant (`AddHostsFromListing`);
  - the nested `set_variable` loop (`SetHostVariables`);
  - the whole of `parse` as a function (`ParseSpec`) and as a method
    (`Parse`). Each method's postcondition ties the new state of the
    inventory object to the function.
- `InventoryVaultProperties` (`inventory_vault_properties.dfy`): what the
  loop and `parse` do to the inventory.

The Vault calls are inputs:

- `listing` is the `keys` list returned by `list_secrets`, or `None` when
  that call raised.
- `payloads` maps each path whose `read_secret_version` succeeds to the
  `data` of the secret's latest version.
- A path missing from `payloads` is a read that raised.
- The environment and the configuration are maps from strings to strings.
- The exceptions that end `parse` are the constructors of `VaultEnv.Error`:
  - `AnsibleParserError` with its exact message;
  - `hvac.exceptions.Unauthorized`;
  - the `KeyError` for a missing `vault_mount_point`;
  - a failed listing;
  - a failed read.

The model follows the code as written, including these points a reader
might not expect:

- Credentials are picked by the first selecting variable that is present,
  not by the first complete set of variables. With `ANSIBLE_HASHI_VAULT_ROLE_ID`
  set but `ANSIBLE_HASHI_VAULT_SECRET_ID` missing, `parse` fails even when
  the JWT variables are complete.
- A missing `vault_mount_point` fails only after the login.
- A failed listing leaves the group added.
- A read that fails mid-loop leaves the hosts added before it in the
  inventory (`PopulateStopsAtFirstFailedRead`).

## Model

| member | source | states |
|---|---|---|
| VaultEnv.VerifyFile | plugins/inventory/inventory_vault.py:49-56 | a path is accepted only if the base plugin's check accepts it |
| VaultEnv.EndsWithConcat | plugins/inventory/inventory_vault.py:54 | `endswith(suffix)` holds exactly when the path is some string followed by the suffix |
| VaultEnv.VerifyFileExactSuffixes | plugins/inventory/inventory_vault.py:49-56 | `verify_file` is true if and only if the base check passes and the path ends in `inventory_vault.yaml` or `inventory_vault.yml` |
| VaultEnv.ResolveSettings | plugins/inventory/inventory_vault.py:64-74 | the checks pass if and only if VAULT_ADDR, VAULT_CACERT and `vault_secret_path` are all present; on success the URL, CA and secret path are their values; every failure is a parser error |
| VaultEnv.SelectCredentials | plugins/inventory/inventory_vault.py:86-136 | selected credentials hold exactly the values of their environment variables, so no partial credentials reach a login; every failure is a parser error |
| VaultEnv.Authenticate | plugins/inventory/inventory_vault.py:92-98 | the session is returned if and only if it is authenticated after login; otherwise Unauthorized with the plugin's message |
| VaultEnv.Prepare | plugins/inventory/inventory_vault.py:64-138 | a prepared run logged in with credentials taken from the environment, and the session was authenticated; each failure case is stated by `ValidationOrder`, `SelectionFailureBeforeLogin`, `RejectedLoginIsUnauthorized` and `MountPointAfterLogin` |
| VaultEnv.ValidationOrder | plugins/inventory/inventory_vault.py:64-74 | a missing VAULT_ADDR is reported before a missing VAULT_CACERT, and both before a missing `vault_secret_path`, whatever else the input holds |
| VaultEnv.ValidationBeforeLogin | plugins/inventory/inventory_vault.py:64-86 | when a setting is missing, the result does not depend on the login at all, so no authentication is attempted |
| VaultEnv.FirstConfigured | plugins/inventory/inventory_vault.py:86-136 | no method is configured exactly when none of the selecting variables is set; otherwise the method is that of the first entry in the order whose variable is set |
| VaultEnv.SelectionFollowsPrecedence | plugins/inventory/inventory_vault.py:86-136 | the first configured method in the order token, AppRole, JWT is used. It fails exactly when its companion variable is missing, with that method's message. With no method configured the result is the "no auth" error |
| VaultEnv.TokenTakesPrecedence | plugins/inventory/inventory_vault.py:86-95 | with VAULT_TOKEN set, the token is used whatever else is set |
| VaultEnv.SelectCredentialsDeadChecks | plugins/inventory/inventory_vault.py:88-89 | the `is None` checks after an `in os.environ` test never report; the AppRole message appears only when the role id is set and the secret id is missing |
| VaultEnv.SelectionFailureBeforeLogin | plugins/inventory/inventory_vault.py:86-136 | with the settings complete, a credential-selection failure (no method configured, or the selected method's companion variable missing) is the error `parse` reports, and the login is not consulted, so no client is built and no partial credentials reach a login |
| VaultEnv.RejectedLoginIsUnauthorized | plugins/inventory/inventory_vault.py:96-98 | in every auth branch, a session not authenticated after login ends the run with Unauthorized("Unable to authenticate to the Vault service") |
| VaultEnv.MountPointAfterLogin | plugins/inventory/inventory_vault.py:138 | with the settings and credentials present and the login accepted, the run is prepared exactly when `vault_mount_point` is configured; otherwise the lookup fails with a missing-key error |
| VaultEnv.PrepareSucceeds | plugins/inventory/inventory_vault.py:92-139 | a prepared run uses the selected credentials at VAULT_ADDR and carries the configured mount point and secret path |
| SecretPath.Split | plugins/inventory/inventory_vault.py:140 | `split` returns at least one piece, no piece contains the separator, and there are two or more pieces exactly when the separator occurs |
| SecretPath.JoinSplit | plugins/inventory/inventory_vault.py:140 | joining the pieces of `split` with the separator gives back the string |
| SecretPath.GroupName | plugins/inventory/inventory_vault.py:140 | the group name contains no `/`; a path without `/` is its own group name |
| SecretPath.LastPartIsSuffix | plugins/inventory/inventory_vault.py:140 | the last piece of a split is a suffix of the string, preceded by the separator unless it is the whole string |
| SecretPath.GroupNameIsLastSegment | plugins/inventory/inventory_vault.py:140 | the group name is the part of the secret path after its last `/`, or the whole path when it has none |
| AnsibleInventory.AppendNew | plugins/inventory/inventory_vault.py:154 | the result holds the old elements and the added one, keeps the old sequence as its prefix, and stays free of duplicates |
| AnsibleInventory.AppendAll | plugins/inventory/inventory_vault.py:147-157 | adding elements one by one keeps the earlier sequence as a prefix, keeps the elements distinct, and the members are the old ones plus the added ones |
| AnsibleInventory.AppendAllFresh | plugins/inventory/inventory_vault.py:147-157 | elements that are new and distinct are appended in their order |
| AnsibleInventory.InventoryState.AddGroup | plugins/inventory/inventory_vault.py:141 | the group joins the groups; a new group starts with no members and no other group's members change; adding an existing group changes nothing; hosts and variables are unchanged |
| AnsibleInventory.InventoryState.AddHost | plugins/inventory/inventory_vault.py:154 | a new host is appended and starts with an empty variable table, other tables kept; adding an existing host changes nothing; groups and members are unchanged |
| AnsibleInventory.InventoryState.SetVariable | plugins/inventory/inventory_vault.py:156 | the host's variable takes the value, its other variables are kept, other hosts' tables are unchanged, and no group, host or membership changes |
| AnsibleInventory.InventoryState.SetVariables | plugins/inventory/inventory_vault.py:155-156 | the host's variables are its earlier ones with every pair of the data set over them: the data's values win, other earlier values are kept, no other key appears; other hosts' tables and all groups, hosts and memberships are unchanged |
| AnsibleInventory.InventoryState.AddChild | plugins/inventory/inventory_vault.py:157 | the host joins the group's members unless it is one already, the group gets a member list, other groups' members are unchanged, and no group, host or variable changes |
| AnsibleInventory.AddHostWithVariables | plugins/inventory/inventory_vault.py:154-157 | one host step appends the host unless it is already present, appends it to the group's members unless already there, and sets the host's variables to its earlier ones overridden by the data, every other table unchanged |
| AnsibleInventory.AddGroupValid | plugins/inventory/inventory_vault.py:141 | adding a group keeps the inventory well formed, and the group then has a member list |
| AnsibleInventory.AddHostValid | plugins/inventory/inventory_vault.py:154 | adding a host keeps the inventory well formed, and the host then has a variable table |
| AnsibleInventory.AppendAllToEmpty | plugins/inventory/inventory_vault.py:147-157 | distinct elements added to an empty sequence come out in the order they went in |
| AnsibleInventory.EmptyValid | plugins/inventory/inventory_vault.py:59 | an empty inventory is well formed |
| AnsibleInventory.SetVariablesValid | plugins/inventory/inventory_vault.py:155-156 | setting variables of a known host keeps the inventory well formed |
| AnsibleInventory.AddChildValid | plugins/inventory/inventory_vault.py:157 | making a known host a member of a known group keeps the inventory well formed |
| AnsibleInventory.AddHostWithVariablesValid | plugins/inventory/inventory_vault.py:154-157 | a host step on a known group keeps the inventory well formed: distinct hosts, a variable table per host, distinct members that are all hosts |
| AnsibleInventory.InventoryData.constructor | plugins/inventory/inventory_vault.py:59 | a new inventory is empty |
| AnsibleInventory.InventoryData.AddGroup | plugins/inventory/inventory_vault.py:141 | `add_group` returns the group's name and updates the fields as `InventoryState.AddGroup` does |
| AnsibleInventory.InventoryData.AddHost | plugins/inventory/inventory_vault.py:154 | `add_host` updates the fields as `InventoryState.AddHost` does |
| AnsibleInventory.InventoryData.SetVariable | plugins/inventory/inventory_vault.py:156 | `set_variable` on a known host sets one variable and nothing else |
| AnsibleInventory.InventoryData.AddChild | plugins/inventory/inventory_vault.py:157 | `add_child` appends a known host to a known group's members unless already there, and nothing else changes |
| InventoryVault.LeafKeys | plugins/inventory/inventory_vault.py:147-149 | the keys kept are exactly the listed keys without `/`, and there are no more of them than listed keys (their order is stated by `LeafKeysOne` and `LeafKeysAppend`) |
| InventoryVault.LeafKeysOne | plugins/inventory/inventory_vault.py:147-149 | a single listed key is kept exactly when it contains no `/` |
| InventoryVault.LeafKeysAppend | plugins/inventory/inventory_vault.py:147-149 | filtering a listing is filtering its parts in turn, so the kept keys stay in listing order |
| InventoryVault.Step | plugins/inventory/inventory_vault.py:147-157 | one iteration never changes the groups; a failed read changes nothing |
| InventoryVault.StepAdds | plugins/inventory/inventory_vault.py:148-157 | a readable leaf key becomes a host (appended unless present) and a member of the group. Its variables are its earlier ones overridden by exactly the pairs of the secret read at `secret_path/key`. Nothing else changes |
| InventoryVault.Populate | plugins/inventory/inventory_vault.py:147-157 | the host loop never adds or removes a group |
| InventoryVault.PopulateValid | plugins/inventory/inventory_vault.py:147-157 | the host loop keeps a well-formed inventory well formed |
| InventoryVault.SetHostVariables | plugins/inventory/inventory_vault.py:155-156 | the nested loop over the secret's keys, in any order, leaves the host's variables as the earlier ones overridden by the secret's pairs and changes nothing else |
| InventoryVault.AddSecretHost | plugins/inventory/inventory_vault.py:154-157 | `add_host`, the `set_variable` loop and `add_child` together perform one host step and keep the inventory well formed |
| InventoryVault.AddHostsFromListing | plugins/inventory/inventory_vault.py:146-157 | the `for` loop over the listing leaves the inventory and the outcome that `Populate` describes, stopping at the first read that fails |
| InventoryVault.ParseSpec | plugins/inventory/inventory_vault.py:59-157 | a failed check or login changes nothing and reports that error. Otherwise the group named after the secret path is added, and no other group |
| InventoryVault.Parse | plugins/inventory/inventory_vault.py:59-157 | `parse` on the inventory object leaves the state and outcome that `ParseSpec` describes |
| InventoryVaultProperties.PopulateIgnoresFolders | plugins/inventory/inventory_vault.py:147-149 | keys containing `/` have no effect: the loop over the listing equals the loop over its leaf keys |
| InventoryVaultProperties.PopulateOutcome | plugins/inventory/inventory_vault.py:147-153 | the loop completes exactly when every leaf key's secret can be read; otherwise it reports the path of a leaf key that cannot be read |
| InventoryVaultProperties.PopulateStopsAtFirstFailedRead | plugins/inventory/inventory_vault.py:150-153 | a failed read ends the run with that path's error, and the inventory keeps exactly what the keys before it added |
| InventoryVaultProperties.LeafKeysCons | plugins/inventory/inventory_vault.py:147-149 | a leaf key at the head of the listing is the first key kept |
| InventoryVaultProperties.AppendAllCons | plugins/inventory/inventory_vault.py:147-157 | adding a sequence of keys is adding its first key, then the rest |
| InventoryVaultProperties.PopulateHosts | plugins/inventory/inventory_vault.py:147-154 | after a complete loop the hosts are the earlier ones followed by the new leaf keys, in listing order |
| InventoryVaultProperties.PopulateMembers | plugins/inventory/inventory_vault.py:147-157 | after a complete loop the group's members are the earlier ones followed by the new leaf keys in listing order, and no other group's members change |
| InventoryVaultProperties.MembersStep | plugins/inventory/inventory_vault.py:157 | one membership followed by the rest of the listing is the membership of the whole listing |
| InventoryVaultProperties.MergeTwice | plugins/inventory/inventory_vault.py:155-156 | setting the same pairs twice is setting them once |
| InventoryVaultProperties.VarsAfterLeaf | plugins/inventory/inventory_vault.py:150-156 | a leaf key's step followed by the rest of the listing gives the variables described for the whole listing |
| InventoryVaultProperties.VarsAfterFolder | plugins/inventory/inventory_vault.py:148-149 | a folder key followed by the rest of the listing gives the variables described for the rest |
| InventoryVaultProperties.PopulateVars | plugins/inventory/inventory_vault.py:150-156 | after a complete loop each leaf key's variables are its earlier ones overridden by exactly the pairs of the secret at `secret_path/key`. Every other host keeps its variables, and no other variable table appears |
| InventoryVaultProperties.AppendAllPresent | plugins/inventory/inventory_vault.py:154-157 | adding hosts or members that are all present already changes nothing |
| InventoryVaultProperties.VarsAfterTwice | plugins/inventory/inventory_vault.py:155-156 | reading the same secrets into hosts that already hold them changes no variable |
| InventoryVaultProperties.PopulateIdempotent | plugins/inventory/inventory_vault.py:147-157 | a second complete run with the same listing and secrets changes nothing |
| InventoryVaultProperties.PopulateFreshHosts | plugins/inventory/inventory_vault.py:147-154 | into an inventory with no hosts, distinct leaf keys become exactly the hosts, in listing order |
| InventoryVaultProperties.PopulateFreshMembers | plugins/inventory/inventory_vault.py:157 | for a group without members, distinct leaf keys become exactly its members, in listing order |
| InventoryVaultProperties.PopulateFreshVars | plugins/inventory/inventory_vault.py:150-156 | into an inventory with no variables, each host's variables are exactly its secret's pairs, and only the hosts have variables |
| InventoryVaultProperties.ParseBuildsInventory | plugins/inventory/inventory_vault.py:138-157 | `parse` into an empty inventory with a fully readable listing of distinct keys gives one group named after the secret path. Its members and the hosts are the leaf keys in listing order, and each host holds exactly its secret's pairs |
| InventoryVaultProperties.UnauthorizedAddsNothing | plugins/inventory/inventory_vault.py:96-141 | when the session is not authenticated after login, `parse` fails with Unauthorized and adds no group or host |
| InventoryVaultProperties.GroupAddedBeforeListing | plugins/inventory/inventory_vault.py:140-146 | the group is added before the listing: a failed listing leaves exactly the group added |

## Left out

- The SSL probe at lines 76-84 is left out. It sends a request to
  VAULT_ADDR and, on an SSL error, appends the file named by VAULT_CACERT
  to certifi's CA bundle. That is network and file I/O with a shared-file
  side effect. The model assumes the probe always returns, so it does not
  capture these ways `parse` can end after the three settings checks and
  before any authentication branch runs:
  - `requests.get` raising an error other than an SSL error (a refused
    connection, a timeout, or a malformed URL such as an empty VAULT_ADDR);
  - the request hanging, since no timeout is set;
  - opening the VAULT_CACERT file failing in the SSL-error branch.
  The "no auth", missing-companion and Unauthorized errors are therefore
  reached in the plugin only when the probe returns. The model only checks
  that VAULT_CACERT is present; its value is never used.
- The hvac calls are inputs rather than code:
  - client creation, `auth.approle.login`, `auth.jwt.jwt_login` and
    `is_authenticated` become the `Login` oracle;
  - `list_secrets` becomes `listing`;
  - `read_secret_version` becomes `payloads`.
- Exceptions that hvac raises inside a login call are not modelled. A
  rejected login is modelled only through `is_authenticated` being false.
- A listing response without `data.keys`, and a read response without
  `data.data`, are not modelled.
- The mount point is only read and carried in `Plan`. `payloads` is keyed
  by path alone, because the mount is fixed for the whole run.
- YAML values are strings. A `vault_secret_path` or `vault_mount_point` set
  to null, or to a non-string, is not representable. `config.get(...) is
  None` is therefore modelled as the key being absent.
- `BaseInventoryPlugin.verify_file` is the boolean input `baseAccepts`.
  `BaseInventoryPlugin.parse` and `_read_config_data`, with their own
  errors, are not part of this model; the configuration is given as a map.
- The Ansible inventory is modelled only through the four operations the
  plugin calls. Not modelled:
  - the implicit `all` and `ungrouped` groups;
  - name clashes between hosts and groups;
  - `add_group` and `add_host` raising an Ansible error for an empty name.
    A secret path ending in `/` gives the group name "", and an empty listed
    key gives the host name "". The model accepts both;
  - Ansible's `add_host` seeding every new host with the variables
    `inventory_file` and `inventory_dir`. "Exactly its secret's pairs"
    (`PopulateFreshVars`, `ParseBuildsInventory`) describes the variables
    the plugin's `set_variable` calls set, not everything Ansible then
    holds for the host;
  - the group memberships Ansible assigns on its own when it reconciles
    the inventory after parsing.
- `Display` and the `DOCUMENTATION`, `EXAMPLES` and `RETURN` strings are
  left out.
- InventoryVault.Parse: requires a well-formed inventory object, which
  Ansible always hands the plugin. Its postcondition relates the object to
  `ParseSpec`, and the properties of `ParseSpec` are stated as lemmas in
  `InventoryVaultProperties`.
