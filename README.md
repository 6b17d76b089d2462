# halvor core, modelled in Dafny

halvor (`hal`) is a homelab command-line tool. It discovers the machines running its agent over Tailscale and the local
network, answers agent requests over a small JSON protocol, keeps host and SMB configuration in a `.env` file and in a
SQLite database, generates the database layer from the schema, and drives Docker, Portainer, Nginx Proxy Manager, SMB
mounts, backups, self-update and the iOS simulator picker through shell commands on local or remote hosts.

This project models the sequential logic under that glue and proves what it promises. Every piece of I/O is an input:
command output, the environment-variable list, file contents, database rows (as maps and sequences), TCP reachability
(an oracle function), HTTP outcomes, the clock and the UUID source. Where the source sends commands, the model returns
the commands it would issue (argv lists, shell lines, effect logs) so that their content and order can be stated.

One Dafny module per source file:

| module | file |
|---|---|
| `Discovery` | src/agent/discovery.rs |
| `Agent` | src/agent/server.rs |
| `AgentApi` | src/agent/api.rs |
| `AgentSync` | src/agent/sync.rs |
| `FfiClient` | src/ffi/client.rs |
| `CFfi` | src/ffi/c_ffi.rs |
| `Networking` | src/utils/networking.rs |
| `TailscaleService` | src/services/tailscale.rs |
| `Config` | src/config/mod.rs |
| `ConfigService` | src/config/service.rs |
| `EnvFile` | src/config/env_file.rs |
| `HostService` | src/services/host.rs |
| `Exec` | src/utils/exec.rs |
| `Ssh` | src/utils/ssh.rs |
| `DbTable` | src/db/core/table.rs (the table as a class over a map of rows) |
| `TableMacro` | src/db/core/macros.rs |
| `DbSchema` | src/db/core/schema.rs |
| `DbGenerator` | src/db/core/generator.rs |
| `DbErrors` | src/db/core/errors.rs |
| `HostInfoTable` | src/db/generated/host_info.rs |
| `Migration004` | src/db/migrations/004_fix_host_info_id_column.rs |
| `Migrate` | src/commands/migrate.rs |
| `Smb` | src/smb.rs |
| `Npm` | src/services/npm.rs |
| `DockerBuild` | src/services/docker/build.rs |
| `Docker` | src/services/docker/mod.rs |
| `Update` | src/update.rs |
| `FfiBindings` | src/utils/ffi_bindings.rs |
| `Portainer` | src/portainer.rs |
| `Provision` | src/provision/mod.rs |
| `Backup` | src/services/backup.rs |
| `DevDevices` | src/commands/dev.rs |

`Wrappers` holds `Option`/`Result`, `Strings` the Rust `str` operations the code relies on (`lines`, `trim`, `split`,
`find`, `starts_with`, `contains`, `to_lowercase`, integer parsing and printing, string order), and `Json` a
`serde_json::Value` with ordered object members.

Loops in the source are methods with loop invariants proved against recursive specification functions (left folds over
the input, so that the invariant is `acc == F(xs[..i])`); in-place state (the database table, the agent server's
configuration, the builder of `docker build` arguments, the simulator list sorted in an array) is a class or an array
with `modifies` frames.

Notes where the code and its documentation part ways, modelled as the code does it (the exceptions are the
operations built on a corrected definition from "## Findings", each named under "## Left out"):

- The agent server defaults to port 23500, while discovery, the client and the C interface default to 13001
  (`CFfi.DefaultPortMismatch`).
- The local sweep's "prefix" is `rsplit('.').nth(1)`, the third octet alone, not a /24 network
  (`Discovery.PrefixIsThirdOctet`); the candidates are `<octet>.1` … `<octet>.254`.
- `discover_all` does not merge the fields of a Tailscale record and a local record of the same machine; it keeps the
  first record of each key.
- A failed remote command reaches the client as `Command failed: Command failed: <stderr>`: the server and the client
  each add the prefix (`AgentApi.ExecuteThroughServer`).
- The C entry point `halvor_execute_command` is documented to return JSON but returns the raw command output.
- `select_one` returns the last matching row, not the first.
- `Executor::target_host` needs the exact configured host name, while `Executor::new` accepts a normalized one
  (`Exec.TargetHostNeedsExactName`).
- `get_table_schema` skips a column named `unique_…` or `check_…` (its part starts with `UNIQUE`/`CHECK`), and
  `DEFAULT NULL` sets `not_null` (the word `NULL` is looked for on its own).
- The generator's `is_unique` flag is never read; its `COL UNIQUE` test misses a column declared `col TEXT UNIQUE` and
  also matches a longer name ending in `col`.
- `create_migration_file` ignores file names whose prefix is not a `u32`, and one past version `u32::MAX` overflows; the
  model returns an error where a debug build panics.
- `remove_fstab_entry` writes nothing when every line matches, so the entry stays (`Smb.RemoveKeepsWhenAllMatch`).
- NPM's compose parser skips a port entry with a bind address, such as `127.0.0.1:8080:80`.
- The GHCR channel tag is `development` for a release build and `dev` otherwise.
- `restore_service` propagates a failed volume restore; `perform_restore` ignores it.
- A failure after `perform_backup` stopped the containers leaves them stopped (`Backup.BackupFailureLeavesStopped`).
- A bind-mount archive `<container>_<leaf>.tar.gz` is restored into a volume named `<container>_<leaf>`.
- `list_available_devices` runs `xcrun` with the arguments `xcrun simctl …`, so the JSON path depends on what that
  call returns; the model takes its outcome as an input, and a failed exit falls back to the text listing.
- The text listing treats only lines mentioning both `--` and `iOS` as runtime headers. Other runtimes' headers, such
  as `-- watchOS 10.0 --`, have no parentheses and are skipped, so the devices after them keep the runtime of the last
  iOS header. The legacy path does not look at the exit status.
- `src/provision/mod.rs` holds a copy of `PortainerEdition` identical to the one in `src/portainer.rs`
  (lines 16-38 against 14-34); both are modelled by `Portainer.FromStr` and `Portainer.ComposeFile`.
- `src/portainer.rs` uses the container listing and compose-command lookup of the older `src/docker.rs`; they behave as
  the ones in src/services/docker/mod.rs and are given as their outcomes.

## Model

| member | source | states |
|---|---|---|
| Discovery.NewDiscovery | src/agent/discovery.rs:24-26 | discovery probes exactly the port it is given |
| Discovery.DefaultDiscovery | src/agent/discovery.rs:28-30 | the default discovery port is 13001 |
| Discovery.DiscoverViaTailscale | src/agent/discovery.rs:33-56 | a failed device listing gives no hosts; otherwise the hosts are the answering devices of the listing, in listing order |
| Discovery.TailscaleHostsMeaning | src/agent/discovery.rs:37-53 | a Tailscale candidate is exactly a listed device with an address that answers on the discovery port |
| Discovery.TailscaleHostShape | src/agent/discovery.rs:42-49 | each Tailscale candidate has no local address, its Tailscale address and name, `reachable` set, and the discovery port |
| Discovery.LocalPrefix | src/agent/discovery.rs:71 | the prefix is the second piece from the right of the address split at `.`, and there is none when the address has no `.` |
| Discovery.SplitCount | src/agent/discovery.rs:71 | splitting gives at least two pieces exactly when the separator occurs |
| Discovery.SweepPrefix | src/agent/discovery.rs:74-86 | the probe of `<prefix>.1` to `<prefix>.254` yields exactly the answering addresses, in order, each named `host-<i>` |
| Discovery.DiscoverViaLocalNetwork | src/agent/discovery.rs:59-92 | a failed address read gives no hosts; otherwise the hosts are the answering sweep addresses of every non-loopback local address, in order |
| Discovery.SweepMeaning | src/agent/discovery.rs:74-86 | a sweep host is exactly `host-<i>` at an answering `<p>.<i>` with `1 <= i <= 254` |
| Discovery.LocalHostsMeaning | src/agent/discovery.rs:64-88 | a local candidate is exactly an answering `<p>.<i>`, `1 <= i <= 254`, where `p` is the prefix of a local address other than `127.0.0.1` and `::1` |
| Discovery.PrefixIsThirdOctet | src/agent/discovery.rs:70-71 | for a dotted quad `a.b.c.d` the prefix is the third octet `c`, so the sweep is not the /24 the comment in the source assumes |
| Discovery.SortByKey | src/agent/discovery.rs:128-132 | the sort yields a sequence ascending by key (the Tailscale address, else the local one) that is a permutation of its input |
| Discovery.FirstWith | src/agent/discovery.rs:128-137 | the first host with a key is an input host with that key, and there is none exactly when no host has the key |
| Discovery.SortKeepsFirst | src/agent/discovery.rs:128-132 | the sort is stable: for every key, the first host carrying it is the same before and after |
| Discovery.DedupByKey | src/agent/discovery.rs:133-137 | deduplication keeps the first element and keeps only input hosts |
| Discovery.DedupStrict | src/agent/discovery.rs:133-137 | deduplicating a sorted sequence gives strictly ascending, hence pairwise-distinct, keys |
| Discovery.DedupKeepsFirsts | src/agent/discovery.rs:133-137 | on a sorted sequence every survivor is the first host of its key, and every key keeps its first host |
| Discovery.MergeCandidatesMeaning | src/agent/discovery.rs:127-137 | the merge is ascending with pairwise-distinct keys, loses no key, invents no host, and of hosts sharing a key keeps the earliest in Tailscale-then-local order |
| Discovery.DiscoverAll | src/agent/discovery.rs:114-140 | discovery never fails, and its result is the merge of the Tailscale candidates followed by the local ones, a failed source contributing nothing |
| Discovery.MergePair | src/agent/discovery.rs:127-137 | of two hosts with the same key the earlier survives; with different keys both survive, in key order |
| Agent.DefaultServer | src/agent/server.rs:13-19 | the default server listens on port 23500, has no secret, and its port differs from the discovery port 13001 |
| Agent.NewServer | src/agent/server.rs:56-58 | a new server keeps exactly the port and secret it is given |
| Agent.HostnameOf | src/agent/server.rs:112-116 | the name is `$HOSTNAME`, else the contents of `/etc/hostname`, else `unknown`, trimmed in every case |
| Agent.LocalIpOf | src/agent/server.rs:118-119 | the local address is the first address read, and none when reading failed or gave no address |
| Agent.DockerVersionOf | src/agent/server.rs:126-138 | a Docker version is reported only for a successful run with UTF-8 output, and it is that output trimmed |
| Agent.FlagsOf | src/agent/server.rs:141-146 | the installed flags are the record's when one is read, and `(false, false)` when there is no record or the lookup fails |
| Agent.HostInfoOf | src/agent/server.rs:106-159 | the host report never fails and each field is the fallback-aware value of its own source |
| Agent.HostnameTrimmed | src/agent/server.rs:112-116 | the reported hostname has no leading or trailing whitespace, whichever source it came from |
| Agent.ExecuteCommandResponse | src/agent/server.rs:161-189 | a successful exit gives `Success` with stdout; otherwise `Error` with `Command failed: ` followed by stderr |
| Agent.Dispatch | src/agent/server.rs:89-98 | `Ping` gives `Pong`, `SyncConfig` gives `Success("Config synced")` for any payload, and the other requests give their handler's response |
| Agent.TokenIgnored | src/agent/server.rs:161-189 | two command requests that differ only in the token get the same response |
| Agent.Stateless | src/agent/server.rs:8-11 | the response does not depend on the server's port or secret |
| Agent.HandleConnection | src/agent/server.rs:84-104 | an unreadable request or a command that cannot be spawned writes nothing and fails; otherwise exactly the dispatched response is written, and the call fails only if the write failed |
| Agent.OneResponse | src/agent/server.rs:84-104 | every readable request other than an unspawnable command gets exactly one response, and `Ping` always gets `Pong` |
| AgentApi.NewClient | src/agent/api.rs:14-20 | a new client keeps the host and port it is given and has no token |
| AgentApi.WithToken | src/agent/api.rs:22-25 | only the token changes, to the one given |
| AgentApi.Ping | src/agent/api.rs:28-31 | a delivered `Pong` gives `Ok(true)`, any other delivered response `Ok(false)`, and a transport failure an error |
| AgentApi.GetHostInfo | src/agent/api.rs:34-41 | `Ok` exactly on a `HostInfo` response, carrying its report; `Agent error: ` plus the message on `Error`; `Unexpected response type` on the other responses |
| AgentApi.ExecuteRequest | src/agent/api.rs:45-52 | the request carries the command and the arguments in their original order, and the client's token or `default` |
| AgentApi.ExecuteCommand | src/agent/api.rs:44-59 | `Ok` exactly on a `Success` response, carrying its output; `Command failed: ` plus the message on `Error`; `Unexpected response type` otherwise |
| AgentApi.OneExchange | src/agent/api.rs:75-82 | each call makes one exchange with no retry: transports that agree on that exchange give the same result |
| AgentApi.PingThroughServer | src/agent/api.rs:28-31 | against the server's dispatch, `ping` gives `true` |
| AgentApi.ExecuteThroughServer | src/agent/api.rs:44-59 | against the server's dispatch, a command returns the program's stdout exactly when it runs and exits successfully, whatever the token |
| AgentApi.HostInfoThroughServer | src/agent/api.rs:34-41 | against the server's dispatch, `get_host_info` returns the server's own report |
| AgentSync.HostStore.StoreHostInfo | src/agent/sync.rs:34-40 | the call returns the database's outcome; on success the store's record for the hostname is replaced, on failure nothing changes; configs are untouched |
| AgentSync.HostStore.GetHostConfig | src/agent/sync.rs:43 | a failed read is its error; otherwise the result is the stored config for the hostname, present exactly when one is stored |
| AgentSync.HostStore.StoreHostConfig | src/agent/sync.rs:58 | the call returns the database's outcome; on success the store's config for the hostname is replaced, on failure nothing changes; records are untouched |
| AgentSync.NewConfigSync | src/agent/sync.rs:12-14 | the syncer keeps the local hostname it is given |
| AgentSync.FillMissing | src/agent/sync.rs:43-58 | a stored address or Tailscale name is never overwritten and is filled only when absent; hostname and backup path are unchanged |
| AgentSync.FillMissingIdempotent | src/agent/sync.rs:46-56 | filling twice from the same report gives what filling once gives |
| AgentSync.SyncStep | src/agent/sync.rs:18-60 | an unreachable host or a failed report leaves the store as it was; a reachable host with neither address is the error `No IP for host <name>`; a successful report gives the writes of `ApplyReport`; the step fails exactly when `StepFails` holds, and stored configs only gain missing addresses |
| AgentSync.ApplyReport | src/agent/sync.rs:34-59 | a failed `store_host_info` is its error and writes nothing; otherwise the record is replaced; a failed read, a host without a stored config or a failed config write leaves the configs as they were; success with a stored config is that config with its missing addresses filled; the error, if any, is exactly one of the three calls' |
| AgentSync.StoreReport | src/agent/sync.rs:34-59 | the outcome and the new store are those of `ApplyReport` on the old store, each database error propagated as `?` does |
| AgentSync.SyncHostInfo | src/agent/sync.rs:17-64 | the outcome and the new store are those of folding the step over the hosts in order, stopping at the first error |
| AgentSync.SyncAllExtends | src/agent/sync.rs:43 | whatever the database outcomes, no config is created for a host absent from the store, and every stored config keeps its hostname, backup path and any address it had |
| AgentSync.Reachable | src/agent/sync.rs:18-21 | the reachable hosts are exactly the input hosts with `reachable` set |
| AgentSync.UnreachableSkipped | src/agent/sync.rs:18-21 | syncing only the reachable hosts gives the same outcome and store as syncing all of them |
| AgentSync.SyncFailsExactly | src/agent/sync.rs:18-60 | the sync fails exactly when the step of some host fails: no address, or a failing database call after a successful report |
| AgentSync.SyncFailsOnMissingAddress | src/agent/sync.rs:24-30 | when every database call succeeds, the sync fails exactly when some reachable host has neither a Tailscale nor a local address |
| AgentSync.SyncEncryptedData | src/agent/sync.rs:67-79 | the placeholder succeeds and leaves the store unchanged |
| FfiClient.NewHalvorClient | src/ffi/client.rs:13-20 | the client discovers on the given port, or on 13001 when none is given |
| FfiClient.DiscoverAgents | src/ffi/client.rs:24-26 | the result is `Ok` of the merged Tailscale and local hosts |
| FfiClient.DiscoverTailscale | src/ffi/client.rs:30-34 | the result is `Ok` of the Tailscale hosts, none when the device listing failed |
| FfiClient.DiscoverLocalNetwork | src/ffi/client.rs:38-42 | the result is `Ok` of the local-network hosts, none when the addresses could not be read |
| FfiClient.PingAgent | src/ffi/client.rs:46-49 | `Ok(true)` exactly when a ping to the given address and port is answered with `Pong`; an error exactly when the exchange fails |
| FfiClient.GetHostInfo | src/ffi/client.rs:53-56 | `Ok` exactly when the address answers with a host report, and then that report |
| FfiClient.ExecuteCommand | src/ffi/client.rs:60-72 | the request goes with the token `default`; `Ok` exactly on a `Success` response, with its output |
| FfiClient.HostsJson | src/ffi/c_ffi.rs:46-49 | the host list becomes a JSON array with one object per host, in order |
| FfiClient.HostJsonKeys | src/agent/discovery.rs:8-16 | a host's JSON object has pairwise-distinct keys |
| FfiClient.HostJsonFields | src/agent/discovery.rs:8-16 | each field of the host is under its own snake_case key, an absent option as `null` |
| FfiClient.HostJsonRoundTrip | src/agent/discovery.rs:8-16 | reading a host's JSON back gives the same host |
| CFfi.ArgText | src/ffi/c_ffi.rs:112-115 | an argument has text exactly when it is non-null valid UTF-8, and the text is its contents |
| CFfi.ClientNew | src/ffi/c_ffi.rs:16-24 | a client is always created; port 0 selects 13001 and any other port is used as given |
| CFfi.ClientFree | src/ffi/c_ffi.rs:28-34 | freeing releases nothing exactly when the pointer is null |
| CFfi.StringFree | src/ffi/c_ffi.rs:209-215 | freeing a string releases nothing exactly when the pointer is null |
| CFfi.ToCString | src/ffi/c_ffi.rs:150-153 | text becomes a C string exactly when it contains no NUL, and then unchanged |
| CFfi.HostsResult | src/ffi/c_ffi.rs:46-55 | a host list gives its JSON text on success and null on any error |
| CFfi.DiscoverAgents | src/ffi/c_ffi.rs:40-56 | a null client gives null; otherwise the JSON of all discovered hosts |
| CFfi.DiscoverViaTailscale | src/ffi/c_ffi.rs:60-76 | a null client gives null; otherwise the JSON of the Tailscale hosts |
| CFfi.DiscoverViaLocalNetwork | src/ffi/c_ffi.rs:80-98 | a null client gives null; otherwise the JSON of the local-network hosts |
| CFfi.PingAgent | src/ffi/c_ffi.rs:103-128 | the result is 0 or 1, and 1 exactly when both pointers are valid and the client's ping gives `Ok(true)` |
| CFfi.GetHostInfo | src/ffi/c_ffi.rs:133-158 | a null client or host gives null; otherwise the report's JSON exactly when the call succeeds and the JSON has no NUL |
| CFfi.ArgsOf | src/ffi/c_ffi.rs:185-195 | a null, non-UTF-8 or unparsable `args_json` is the empty list; otherwise the parsed list |
| CFfi.ExecuteCommand | src/ffi/c_ffi.rs:164-205 | a null client, host or command gives null; otherwise the command's raw output exactly when it succeeds and has no NUL |
| CFfi.NullClient | src/ffi/c_ffi.rs:41-43 | a null client gives null or 0 from every entry point |
| CFfi.DefaultPortMismatch | src/ffi/c_ffi.rs:16-23 | a client made with port 0 discovers on a port other than the agent server's default |
| Networking.CollectNew | src/utils/networking.rs:14-30 | one collection loop pushes, in line order, each extracted candidate that is accepted and not yet present |
| Networking.CollectAll | src/utils/networking.rs:78-87 | the collection loop without the duplicate guard pushes every accepted candidate, in line order |
| Networking.AccumulateKeepsPrefix | src/utils/networking.rs:23-25 | collecting only appends: the addresses already gathered stay first, in their order |
| Networking.AccumulateNoDuplicates | src/utils/networking.rs:23-25 | collecting with the `contains` guard into a list without duplicates leaves it without duplicates |
| Networking.AccumulateSound | src/utils/networking.rs:20-25 | every collected address was already present or is an accepted candidate |
| Networking.AccumulateComplete | src/utils/networking.rs:20-25 | every accepted candidate ends up in the result |
| Networking.AppendAcceptedSplit | src/utils/networking.rs:76-88 | collecting without the guard over two runs of candidates is collecting over the first and then the second |
| Networking.GetLocalIps | src/utils/networking.rs:5-71 | the Unix lookup runs `ip addr`, `hostname -I` and `ifconfig` in that order, has no duplicates, and gives no empty, `100.` or `127.` address |
| Networking.GetTailscaleIps | src/utils/networking.rs:95-144 | the Unix Tailscale lookup uses the same three sources, has no duplicates, and every address starts with `100.` |
| Networking.GetLocalIpsWindows | src/utils/networking.rs:73-89 | the Windows lookup takes the trimmed text after the first `:` of each `IPv4 Address` line, without deduplicating |
| Networking.GetTailscaleIpsWindows | src/utils/networking.rs:146-164 | the Windows Tailscale lookup keeps the `IPv4 Address` lines containing `100.` whose address starts with `100.` |
| Networking.AccumulateAll | src/utils/networking.rs:20-25 | a property of every gathered address and of every accepted candidate holds for every collected address |
| Networking.LocalIpsProperties | src/utils/networking.rs:20-24 | the Unix local addresses are pairwise distinct and none starts with `100.` or `127.` |
| Networking.TailscaleIpsProperties | src/utils/networking.rs:109-137 | the Unix Tailscale addresses are pairwise distinct and all start with `100.` |
| Networking.LocalIpsOrderAndCompleteness | src/utils/networking.rs:12-70 | the `ip addr` addresses come first in their own order, and every address accepted from any source is present |
| Networking.WindowsKeepsDuplicates | src/utils/networking.rs:76-88 | two identical address lines give the address twice on Windows |
| TailscaleService.DeviceOf | src/services/tailscale.rs:208-221 | a peer's name is its `DNSName` string or `unknown`; its address is the first `TailscaleIPs` element when that is a string, and none otherwise |
| TailscaleService.Peers | src/services/tailscale.rs:205-207 | a status document without a `Peer` member has no peers |
| TailscaleService.PeerDevices | src/services/tailscale.rs:202-224 | the loop yields one device per peer, in peer order |
| TailscaleService.ListTailscaleDevices | src/services/tailscale.rs:189-227 | a spawn failure and a parse failure each give their error, a failed exit status gives an empty list, and otherwise one device per peer |
| TailscaleService.PeerFallbacks | src/services/tailscale.rs:208-219 | a peer without a DNS name is `unknown`, and one whose first address is not a string has no address |
| TailscaleService.GetTailscaleIp | src/services/tailscale.rs:230-243 | the call never fails; an address is given exactly for a successful run with non-blank output, and it is that output trimmed |
| TailscaleService.GetTailscaleHostname | src/services/tailscale.rs:246-265 | the call never fails; a name comes only from a successful run with parsable output, and it is the `Self.DNSName` string |
| TailscaleService.GetHostConfigFor | src/services/tailscale.rs:168-180 | an exact key gives its config; otherwise the lookup succeeds exactly when some key resolves to the name, with that key's config, and fails with the `not found in .env` message |
| TailscaleService.CheckAndInstallRemote | src/services/tailscale.rs:99-143 | a failed probe is its error; an installed Tailscale does nothing; a failed package-manager detection is its error; an unknown package manager is an error with no commands; apt, yum and dnf run the same install script and succeed exactly when it does; brew runs `brew install tailscale` and returns its outcome |
| TailscaleService.InstallTailscaleOnHost | src/services/tailscale.rs:147-164 | an unknown host is an error with no commands; under its exact key, a local executor runs the local installer and a remote one the remote check; a host found only through its normalised name or letter case runs no remote command: its executor's error is returned, a local executor runs the local installer, and a remote one fails in `target_host` with `Host '<name>' not found in config` |
| Config.HostKey | src/config/mod.rs:103-154 | a recognised `HOST_` key is `HOST_<n>` followed by its field's suffix, and names the lower-cased `n`; suffixes are tried `_TAILSCALE_IP` first |
| Config.SmbKeyIsFirstUnderscore | src/config/mod.rs:155-162 | an `SMB_` key splits at its first `_` into the lower-cased server and the rest as property, and a key without a further `_` is ignored |
| Config.SetHostField | src/config/mod.rs:104-154 | `_IP`, `_HOSTNAME`, `_TAILSCALE` and `_BACKUP_PATH` set exactly their own field; `_TAILSCALE_IP` sets the address only when it is unset |
| Config.ApplyHost | src/config/mod.rs:108-126 | the host entry is created if missing, only the named host changes, and it changes by its field update |
| Config.NonEmptyTrimmed | src/config/mod.rs:179-183 | the `SHARES` list holds exactly the non-empty trimmed comma parts |
| Config.SetSmbProperty | src/config/mod.rs:175-196 | each known property sets its own field; `SHARES` replaces the shares; `SHARE` appends a trimmed non-empty share not yet present; an unknown property changes nothing |
| Config.ApplySmb | src/config/mod.rs:164-173 | the server entry is created whatever the property, and only that server changes |
| Config.Lookup | src/config/mod.rs:95 | a variable's value is that of the first variable with the key, and none exactly when no variable has it |
| Config.ValidateSmb | src/config/mod.rs:201-215 | validation succeeds exactly when every SMB server has a host and a share, and otherwise reports an incomplete server by its missing configuration |
| Config.CollectVars | src/config/mod.rs:102-199 | the loop over the environment ends with exactly the state the in-order parse `ParseVars` of the variables builds |
| Config.LoadEnvConfig | src/config/mod.rs:81-222 | a missing env file fails; otherwise the load succeeds exactly when every SMB server is complete, with the parsed hosts and servers and `TAILNET_BASE` defaulting to `ts.net` |
| Config.ParsedHosts | src/config/mod.rs:102-154 | a host exists exactly when some variable names it; its address is the last `_IP` value, or the first `_TAILSCALE_IP` value only when there is no `_IP` |
| Config.NoNameNoValues | src/config/mod.rs:103-154 | a host named by no variable has no value for any field |
| Config.IpWinsInEitherOrder | src/config/mod.rs:104-126 | `HOST_<n>_IP` wins over `HOST_<n>_TAILSCALE_IP` in either order |
| Config.UnknownPropertyFails | src/config/mod.rs:164-173 | a server mentioned only with an unknown property is created and fails validation |
| Config.OverrideHostsMeaning | src/config/mod.rs:268-281 | a host listed in the database with a stored config takes that config; every other env host is kept |
| Config.LoadConfig | src/config/mod.rs:252-287 | an env failure is returned; a failed database listing keeps the env config; otherwise the stored configs replace the env ones |
| Config.DefaultUsername | src/config/mod.rs:224-228 | the user is `$USER`, else `$USERNAME`, else `root` |
| ConfigService.StripFirstTld | src/config/service.rs:991-999 | a name ending in none of the suffixes is unchanged; otherwise exactly the first listed suffix it ends with comes off |
| ConfigService.TruncateDomain | src/config/service.rs:1001-1014 | the name changes exactly when it has a dot, does not start with `127.`, `192.168.` or `10.`, and the text after the first dot is at most 10 characters with no digit; then it is cut before that dot |
| ConfigService.NormalizeHostname | src/config/service.rs:989-1017 | the loop over the suffixes, leaving at the first match, computes the normalised name |
| ConfigService.StripsOneSuffixOnly | src/config/service.rs:991-999 | at most one suffix comes off: `pi.scottkey.me.local` becomes `pi.scottkey.me` |
| ConfigService.PrivateAddressUnchanged | src/config/service.rs:1002-1005 | a private address such as `192.168.1.20` is left alone |
| ConfigService.FindHostnameInConfig | src/config/service.rs:1020-1043 | an exact key is returned as is, then the normalised name when it is a key; any result is a key equal to the name or its normalised form ignoring ASCII case, and none exactly when no key is |
| ConfigService.UpdateHostConfig | src/config/service.rs:47-59 | every field present in the update replaces the stored one, and every absent field is kept |
| ConfigService.UpdateWithNothing | src/config/service.rs:47-59 | an update with no fields changes nothing |
| ConfigService.UpdateIdempotent | src/config/service.rs:47-59 | applying the same update twice is applying it once |
| ConfigService.UpdatesCompose | src/config/service.rs:47-59 | two updates in a row equal one update by their merge, the later one winning |
| ConfigService.SetNamedField | src/config/service.rs:24-30 | an unknown field is the error `Unknown field: <f>`; a known field is a one-field update |
| ConfigService.SetHostField | src/config/service.rs:16-35 | a failed read, an unknown field or a failed write is returned as the error and leaves the table as it was; otherwise only the host's row changes, to the current config (or an empty one) with that field set |
| ConfigService.UpdateHostConfigIn | src/config/service.rs:39-64 | a failed read or a failed write is returned as the error and leaves the table as it was; otherwise only the host's row changes, to the current config (or an empty one) merged with the update |
| ConfigService.HostnameArgIgnoresCase | src/config/service.rs:1431-1433 | whether an argument is a hostname does not depend on its ASCII letter case |
| ConfigService.DispatchConfig | src/config/service.rs:1431-1558 | an argument is routed as a hostname exactly when its lower-case form is not a global command; a field subcommand names a known field and targets that argument |
| ConfigService.CommandWordIgnoresCase | src/config/service.rs:1416-1433 | a global command word is recognised in any letter case |
| ConfigService.DispatchedFieldIsKnown | src/config/service.rs:1431-1480 | a routed field subcommand never reaches the unknown-field error |
| ConfigService.CountMissingDistinct | src/config/service.rs:1638-1645 | for a list without duplicates the number of names missing from a set is the size of the set difference |
| ConfigService.StoreSeqIsUnion | src/config/service.rs:1628-1636 | storing every env entry, in any order without repeats, gives the old rows overridden by the env side |
| ConfigService.StoreAll | src/config/service.rs:1625-1636 | the loop succeeds exactly when every env entry's write does, and then every entry is stored, each counted as an update when the listed names hold it and as an addition otherwise; a failing write ends it with that write's error and every row as it was or as the env side has it |
| ConfigService.StoreCounts | src/config/service.rs:1625-1636 | the additions are the env names not listed and the updates the env names listed |
| ConfigService.DeleteStale | src/config/service.rs:1638-1645 | the loop succeeds exactly when every delete of a listed name the env side lacks does, and then exactly those are removed and counted; a failing delete ends it with that delete's error, every row kept as it was or already removed |
| ConfigService.Reconcile | src/config/service.rs:1621-1645 | a table's sync succeeds exactly when every store and stale delete does, and then the table is its rows overridden by the env side minus the stale names, with additions, updates and deletions counted by set sizes; otherwise the error is one of those calls' and each row is as it was or as it was to become |
| ConfigService.ReconcileCovering | src/config/service.rs:1621-1645 | when the listed names cover every row, the table ends up equal to the env side |
| ConfigService.SyncHosts | src/config/service.rs:1620-1651 | the host table's sync succeeds exactly when every env host's store and every delete of a listed host the env file lacks does; the table then equals the env hosts (the old rows overridden by them when the database list fails), with additions and updates adding up to the env host count; a failure leaves each row as it was or as it was to become |
| ConfigService.SettingValues | src/config/service.rs:1683-1712 | there is one value per managed key, in the managed-key order |
| ConfigService.UpsertedMeaning | src/config/service.rs:1718-1729 | after the upserts a setting reads as its last non-empty value, else as it was |
| ConfigService.UpsertSettings | src/config/service.rs:1714-1729 | the upsert loop succeeds exactly when every non-empty value's write does, and then stores them all, counting additions and updates that add up to the non-empty count; otherwise it stops at the first failing write, with the values before it stored |
| ConfigService.DeleteUnset | src/config/service.rs:1739-1746 | the delete loop succeeds exactly when every delete of a stored key in the gone set does, and then removes exactly those keys and counts them; a failing delete ends it with that delete's error, every row kept or already removed |
| ConfigService.SyncSettings | src/config/service.rs:1714-1747 | non-empty values are upserted; if the table can be read back, the managed keys with empty values are deleted and counted; the part succeeds exactly when all those writes do, and a failure is the first failing upsert with the earlier ones stored, or a failing delete with the table between the upserts and the target |
| ConfigService.SettingsSyncMeaning | src/config/service.rs:1714-1747 | non-empty managed values are stored, managed keys with an empty value are gone, and every unmanaged key is untouched |
| ConfigService.SyncSmb | src/config/service.rs:1653-1680 | every env server is stored; when the stored list can be read, the servers the env file no longer names are deleted; the part succeeds exactly when all those writes do, and a failure leaves each row as it was or as it was to become |
| ConfigService.SyncDbFromEnv | src/config/service.rs:1607-1756 | an env failure changes nothing; otherwise hosts, SMB servers and settings are synced in turn, the sync succeeding exactly when every table's writes do; the first failing table's error is returned, that table is left partway, the tables before it are synced and the later ones untouched; on success the report's counts are the set sizes |
| ConfigService.SyncServersAndSettings | src/config/service.rs:1653-1756 | once the hosts are in, the SMB table and then the settings are synced, a failing SMB write leaving the settings untouched; the host table is not changed and the report carries the host counts |
| ConfigService.ListedFacts | src/config/service.rs:1620-1645 | a table's list of names decides its deletions: the stored names the env side lacks when the stored list was read, none otherwise, and the table then becomes the env side, or the old rows overridden by it |
| EnvFile.Filter | src/config/env_file.rs:24-27 | filtering keeps exactly the lines that pass, and never adds lines |
| EnvFile.FilterAppend | src/config/env_file.rs:63-69 | filtering distributes over concatenation, so kept lines keep their relative order |
| EnvFile.HostLines | src/config/env_file.rs:30-44 | there is one host line per present field |
| EnvFile.WriteHostToEnvFile | src/config/env_file.rs:7-51 | the file written is the kept lines followed by the host's lines, joined by newlines, and it ends with a newline |
| EnvFile.RemoveHostFromEnvFile | src/config/env_file.rs:54-76 | a missing file is left alone; otherwise the file written ends with a newline |
| EnvFile.WriteLayout | src/config/env_file.rs:20-44 | after a write no comment line is left, every other line not of the host survives, none of the host's old lines survives, and the host's new lines come last |
| EnvFile.HostLinesShape | src/config/env_file.rs:30-44 | no written host line is a comment |
| EnvFile.RemoveLayout | src/config/env_file.rs:63-70 | a remove keeps every comment line and every line not of the host, and keeps nothing else |
| EnvFile.RemoveMatchesByPrefix | src/config/env_file.rs:67 | matching is by the prefix `HOST_<UPPER>_`, so removing `foo` also removes `HOST_FOO_BAR_IP` |
| EnvFile.HostKeyOfFieldKey | src/config/env_file.rs:31-43 | each written key parses back to the lower-cased host and the field it was written for |
| EnvFile.FoldHostVars | src/config/mod.rs:118-154 | parsing a host's own lines into a state without that host rebuilds its config, and an empty config creates no entry |
| EnvFile.WriteThenParse | src/config/env_file.rs:7-51 | round trip: newline-free values written for a host parse back, under the lower-cased name, to the same config |
| HostService.Database.StoreHostConfig | src/services/host.rs:49-51 | the call returns the database's outcome; on success the host row is inserted or replaced, on failure nothing changes; the SMB and settings tables are untouched |
| HostService.Database.DeleteHostConfig | src/services/host.rs:54-56 | the call returns the database's outcome; on success the host row is removed if present, on failure nothing changes; the other tables are untouched |
| HostService.GetHostConfig | src/services/host.rs:9-19 | a database row wins; otherwise an env failure is returned, and else the env file's config when it names the host and none when it does not |
| HostService.SortedNames | src/services/host.rs:43-44 | the names come out ascending, each once, exactly the names of the set |
| HostService.ListHosts | src/services/host.rs:32-46 | a non-empty database list is returned as is; otherwise an env failure is returned, else the env file's host names sorted and each once |
| HostService.MergeMeaning | src/services/host.rs:122-151 | a name in both sources is tagged `both` and keeps its env config; an env-only name is tagged `env`; a database-only name is tagged `db` with its row or an empty config |
| HostService.MergeHosts | src/services/host.rs:122-151 | the merged table is the env hosts followed by the database names in order, a missing database list counting as empty |
| HostService.TailscalePieceIff | src/services/host.rs:230-239 | a `TS: ` detail is shown exactly when the Tailscale name is set and the hostname is unset or differs from it |
| HostService.DisplayLineShape | src/services/host.rs:240-250 | each line starts with the name and its source marker, and is exactly that when there are no details |
| HostService.RenderLines | src/services/host.rs:220-251 | the loop prints one line per name, in the order given |
| HostService.VerboseTailscaleIff | src/services/host.rs:184-196 | in the verbose form a `Tailscale:` line is shown exactly when the Tailscale name is set and the hostname is unset or differs from it |
| HostService.RenderVerbose | src/services/host.rs:163-218 | the loop prints one block per name, in the order given: name, source, configuration lines, provisioning lines, blank line |
| HostService.ListHostsDisplay | src/services/host.rs:153-254 | no hosts prints the `No servers found.` block; otherwise every merged host appears once, in ascending name order: in the short form one line each between the `Servers:` header and the verbose hint, in the verbose form one block each, with the env file's tailnet base (`ts.net` when it does not load) |
| Exec.DetectFollowsPriority | src/utils/exec.rs:207-219 | detection probes apt-get, yum, dnf and brew in that order and picks the first present |
| Exec.FirstFoundMeaning | src/utils/exec.rs:207-219 | a manager is chosen when its program exists and every earlier one was probed absent |
| Exec.NothingFound | src/utils/exec.rs:216-218 | with nothing found and no probe failing, the result is `Unknown` |
| Exec.InstallPlan | src/utils/exec.rs:222-245 | apt runs `sudo apt-get update` then `sudo apt-get install -y <pkg>`; yum and dnf run `sudo yum|dnf install -y <pkg>`; brew `brew install <pkg>` without sudo; `Unknown` fails with nothing run |
| Exec.RunAll | src/utils/exec.rs:225-235 | commands run in order and stop at the first failure, whose error is the result |
| Exec.InstallPackage | src/utils/exec.rs:222-245 | `Unknown` runs nothing and fails; otherwise the outcome is running the whole plan in order, stopping at the first failure, so it succeeds exactly when every planned command does and a failed apt update stops before the install |
| Exec.BrewPackagesRepeatProgram | src/utils/exec.rs:266-270 | the Brew branch of `_install_packages` as written runs `brew brew install <pkg>`, unlike `install_package` |
| Exec.InstallPackagesPlan | src/utils/exec.rs:248-278 | corrected: with the Brew arguments `install …` that `install_package` uses, the multi-package plan fails exactly for `Unknown` |
| Exec.SinglePackageListAgrees | src/utils/exec.rs:248-278 | with the corrected Brew arguments, installing a one-package list runs the same commands as `install_package` |
| Exec.DisplayNamesDistinct | src/utils/exec.rs:281-289 | distinct managers have distinct display names |
| Exec.ExecutorFor | src/utils/exec.rs:311-362 | with an IP among the local addresses the executor is local; without an IP it connects to `user@<tailscale>`; otherwise to `user@<ip>`; neither address, or an unreadable local address list, is an error |
| Exec.NewExecutor | src/utils/exec.rs:302-363 | a host that cannot be found fails with `Host '<h>' not found in config`; a found host, under any name that resolves to it, gets the executor its config decides |
| Exec.TargetHost | src/utils/exec.rs:366-384 | a local executor gives the hostname; a remote one the configured IP, else the Tailscale name, else an error, and a name that is not an exact key is an error |
| Exec.RemoteTargetsConnection | src/utils/exec.rs:358-384 | for a host under its exact name, a remote executor connects to `user@<target_host>` and is not local |
| Exec.TargetHostNeedsExactName | src/utils/exec.rs:370-373 | a host found only through its normalised name gets an executor, but `target_host` then reports it as not found |
| Ssh.ShellEscape | src/utils/ssh.rs:262-278 | the empty string becomes `''`; a non-empty string of alphanumerics and `- _ / . $` is returned unchanged; anything else is wrapped in single quotes |
| Ssh.ReadEscapedRun | src/utils/ssh.rs:276-277 | inside single quotes, each `'` written as `'"'"'` reads back as a quote, so the escaped text reads back as the original |
| Ssh.ShellEscapeRoundTrip | src/utils/ssh.rs:262-278 | for every string without `$`, the shell reads the escaped word back as exactly the original |
| Ssh.DollarLeftToTheShell | src/utils/ssh.rs:269-273 | a word of safe characters that holds a `$` is left bare, so the remote shell expands it instead of reading it literally |
| Ssh.NewConnection | src/utils/ssh.rs:14-42 | creating a connection never fails, keeps the host, and uses key authentication exactly when the key probe succeeds |
| Ssh.SshOptions | src/utils/ssh.rs:44-59 | the options start with `StrictHostKeyChecking=no`; key authentication adds `PasswordAuthentication=no`; otherwise `keyboard-interactive,password` is allowed |
| Ssh.OptionArgs | src/utils/ssh.rs:45-58 | each option value is preceded by `-o` |
| Ssh.ProgramArgv | src/utils/ssh.rs:65-72 | the argv is the base arguments, `-tt` for the interactive variant, the program, then its arguments |
| Ssh.ParseOptions | src/utils/ssh.rs:44-63 | reading the `-o` pairs back recovers the option values in order |
| Ssh.AfterDestination | src/utils/ssh.rs:102-109 | after the host come an optional `-tt` and then the command, whose first word is no flag |
| Ssh.ArgvReachesHost | src/utils/ssh.rs:44-63 | every argv built reaches the connection's host with the options of its authentication mode and runs exactly the given words there |
| Ssh.ShellArgvRunsCommand | src/utils/ssh.rs:85-89 | `execute_shell` and `execute_shell_interactive` hand the remote side exactly `sh -c <command>` |
| Ssh.ProgramArgvRunsProgram | src/utils/ssh.rs:65-72 | `execute_simple` and `execute_interactive` run the program with its arguments in their order |
| Ssh.HostsToTry | src/utils/ssh.rs:756-768 | the candidates are the IP when set, then the Tailscale name and `<tailscale>.<tailnet_base>` when set, in that order |
| Ssh.AttemptsFor | src/utils/ssh.rs:775-807 | at one address the default user tries a key first, an explicitly given different user tries a key next, and a password login comes last |
| Ssh.Addresses | src/utils/ssh.rs:772-773 | the addresses tried are the candidates' addresses, in order |
| Ssh.TryHost | src/utils/ssh.rs:775-819 | attempts at one address stop at the first success, and when all fail every attempt was made |
| Ssh.TryHosts | src/utils/ssh.rs:770-828 | addresses are tried in order, each once, stopping at the first successful attempt; when none succeeds every attempt at every address was made |
| Ssh.CandidatesDistinct | src/utils/ssh.rs:756-768 | with distinct IP and Tailscale names the three candidates are pairwise distinct |
| DbTable.Project | src/db/core/table.rs:85-87 | `SELECT *` gives one value per column of the table, each the row's value for that column |
| DbTable.Bind | src/db/core/table.rs:115-137 | an insert sets only the named columns |
| DbTable.BindAt | src/db/core/table.rs:115-137 | with distinct column names, column `i` holds parameter `i` and no other column is set |
| DbTable.StoredRoundTrip | src/db/core/table.rs:111-139 | a record stored by column name reads back as itself through an aligned layout |
| DbTable.MissingColumn | src/db/core/table.rs:118-123 | a statement names an unknown column exactly when some column is not in the table, and then reports one |
| DbTable.Matching | src/db/core/table.rs:85-87 | a where clause selects only rows that satisfy it, in rowid order |
| DbTable.Without | src/db/core/table.rs:243-245 | the rows a delete leaves are exactly those that fail the clause |
| DbTable.MatchingAppend | src/db/core/table.rs:85-87 | selection distributes over concatenation |
| DbTable.MatchingCount | src/db/core/table.rs:243-246 | every row is either selected or left, so the two counts add up |
| DbTable.MatchingNone | src/db/core/table.rs:243-246 | a clause no row satisfies selects nothing and leaves everything |
| DbTable.DecodeAll | src/db/core/table.rs:90-93 | decoding succeeds exactly when every row decodes, giving one record per row in order |
| DbTable.DecodeErrorSticks | src/db/core/table.rs:90-92 | once a row fails to decode, later rows do not change the error |
| DbTable.ScanError | src/db/core/table.rs:90-92 | a row that fails to decode during the scan makes the query fail |
| DbTable.SelectMany | src/db/core/table.rs:80-94 | the result is the matching rows, each decoded, in order, or the first decoding error |
| DbTable.SelectAll | src/db/core/table.rs:97-107 | the result is every row decoded in order |
| DbTable.SelectOne | src/db/core/table.rs:52-59 | the result is the LAST matching record, none when nothing matches, and `select_many`'s error when it fails |
| DbTable.SelectOneOrError | src/db/core/table.rs:293-301 | the caller's message when nothing matches; otherwise `select_one`'s record or error |
| DbTable.Select | src/db/core/table.rs:62-76 | without an `id` column the query fails; none exactly when no row has the key; otherwise the first such row decoded |
| DbTable.MatchingEmptyIff | src/db/core/table.rs:62-76 | `WHERE id = ?1` selects nothing exactly when no row has the key |
| DbTable.PlaceholderNumber | src/db/core/table.rs:116 | placeholder `i` is `?` followed by the decimal `i + 1` |
| DbTable.PlaceholdersDistinct | src/db/core/table.rs:116 | no two parameters share a placeholder |
| DbTable.SetClauses | src/db/core/table.rs:194-198 | each update column becomes `col = ?{i+1}` |
| DbTable.InsertParamsAligned | src/db/core/table.rs:115-130 | the insert names as many placeholders as columns and parameters, and parameter `i` is the stamped record's value for column `i` |
| DbTable.UpdateParamsAligned | src/db/core/table.rs:192-216 | in the update, `?{i+1}` receives data value `i`, `?{k+1}` the new `updated_at` and `?{k+2}` the record's own key |
| DbTable.Assigned | src/db/core/table.rs:202-222 | each row the clause selects takes the assignments, and the others are untouched |
| DbTable.Insert | src/db/core/table.rs:111-139 | the table's new state and the result are those of the insert effect, which refuses a row breaking a declared NOT NULL or UNIQUE column or reusing a key; the layout is unchanged |
| DbTable.InsertOrReplace | src/db/core/table.rs:146-189 | the table's new state and the result are those of the insert-or-replace effect, which runs the replacing statement under the looked-up key |
| DbTable.InsertOrReplaceSimple | src/db/core/table.rs:306-336 | the table's new state and the result are those of the simple insert-or-replace effect, the same replacing statement without the lookup |
| DbTable.Update | src/db/core/table.rs:192-224 | the table's new state and the result are those of the update effect, which refuses a NULL for a NOT NULL column or a UNIQUE value that would repeat |
| DbTable.Delete | src/db/core/table.rs:227-235 | the table's new state and the result are those of deleting every row with the key |
| DbTable.DeleteMany | src/db/core/table.rs:238-247 | the table's new state and the result are those of deleting the selected rows |
| DbTable.UpsertBy | src/db/core/table.rs:253-290 | the table's new state and the result are those of the upsert effect, whose insert, update and replace branches check the declared constraints |
| DbTable.InsertedRowReads | src/db/core/table.rs:125-130 | the row an insert stores holds the key it was given and reads back as the stamped record |
| DbTable.InsertMeaning | src/db/core/table.rs:111-139 | a well-formed insert succeeds exactly when every NOT NULL column is set, the key is new and no UNIQUE column's value is already held; a refusal leaves the table and names the constraint; otherwise one row is added at the end and selecting the new key returns the record with both timestamps `now` |
| DbTable.DeleteManyMeaning | src/db/core/table.rs:238-247 | no selected row is left, the others stay in order, and the count is the number removed |
| DbTable.DeleteMeaning | src/db/core/table.rs:227-235 | after `delete`, no row has the key |
| DbTable.DeleteIsDeleteMany | src/db/core/table.rs:227-247 | deleting by key is `delete_many` with `WHERE id = ?1`, apart from the count |
| DbTable.InsertOrReplaceMeaning | src/db/core/table.rs:146-189 | the call fails exactly when the key lookup fails or a NOT NULL column is left NULL, and then changes nothing; otherwise the rows kept are exactly those sharing neither the key nor a UNIQUE value with the new row, none of them repeats its UNIQUE values, and the key has exactly one row, which reads back with `created_at = now` whether or not a row existed |
| DbTable.InsertOrReplaceSimpleAgrees | src/db/core/table.rs:306-336 | whenever the lookup succeeds, the simple variant has exactly the same effect |
| DbTable.UpdateKeepsColumns | src/db/core/table.rs:202-209 | `update` leaves the key and `created_at` of a row as they were |
| DbTable.UpdateSetsColumns | src/db/core/table.rs:194-216 | `update` sets data column `j` to data value `j` and `updated_at` to `now` |
| DbTable.UpdatedRowReads | src/db/core/table.rs:192-224 | after `update` the row with the item's key reads back with its key and `created_at` kept and the data and `updated_at` new |
| DbTable.UpdateMeaning | src/db/core/table.rs:192-224 | on an aligned table `update` keeps the number of rows; it succeeds exactly when no row has the key, or no NOT NULL column is assigned NULL and no assigned UNIQUE value would repeat; a refusal changes nothing and names the constraint; on success rows with other keys are untouched and each row with the item's key is rewritten |
| DbTable.UpsertByBranches | src/db/core/table.rs:253-290 | a failed lookup fails; no match goes through `insert`; a built row keeping the first match's key goes through `update` and returns that key unless the update is refused; any other key goes through insert-or-replace |
| DbTable.UpsertByRowCount | src/db/core/table.rs:268-289 | with a builder that keeps the key it is given, a successful upsert adds a row exactly when nothing matched |
| DbTable.LayoutOf | src/db/core/table.rs:340-352 | the declared layout is the column names, in order |
| DbTable.StoredColumn | src/db/core/table.rs:115-137 | stored by column name, column `i` of `all_columns` holds value `i` of the record's row |
| DbTable.CreateTableAsWrittenMisreads | src/db/core/table.rs:340-352 | as written, a table made by `create_table_sql` returns `created_at` where `from_row` expects the first data field, so a record whose first value differs from its `created_at` does not read back |
| DbTable.AsWrittenSecondColumn | src/db/core/table.rs:341-346 | as written, the second column `SELECT *` returns is `created_at` |
| DbTable.CreateTableAsWrittenExample | src/db/core/table.rs:340-352 | as written, a table whose only field is text reads back no record |
| DbTable.CreateTableRoundTrip | src/db/core/table.rs:340-352 | corrected with the timestamps after the data columns, the layout is aligned and every well-formed record reads back as itself |
| DbTable.CreateTable | src/db/core/table.rs:340-352 | corrected: a new table has the layout with the timestamps after the data columns, no rows, and NOT NULL and UNIQUE on exactly the columns whose declaration says so |
| DbTable.SqliteTable.constructor | src/db/core/table.rs:340-352 | a new table has the given column layout and constraints and no rows |
| DbTable.FirstNullIn | src/db/core/table.rs:111-139 | none exactly when every NOT NULL column among those checked is set; otherwise a NOT NULL column the row leaves NULL |
| DbTable.FirstTaken | src/db/core/table.rs:111-139 | none exactly when no UNIQUE column's non-NULL value is already held by a row; otherwise such a column |
| DbTable.InsertViolation | src/db/core/table.rs:111-139 | a new row is refused exactly when it leaves a NOT NULL column NULL, reuses a key, or repeats a UNIQUE value |
| DbTable.FirstRepeated | src/db/core/table.rs:192-224 | none exactly when no assigned UNIQUE value would end up in two rows; otherwise such a column |
| DbTable.UpdateViolation | src/db/core/table.rs:192-224 | an update is refused exactly when it selects a row and assigns NULL to a NOT NULL column or a UNIQUE value that would repeat |
| DbTable.ReplaceRow | src/db/core/table.rs:165-188 | the replacing statement: a NULL in a NOT NULL column fails and changes nothing; otherwise every row sharing the key or a UNIQUE value is deleted and the new row appended |
| DbTable.SelectedKeyPresent | src/db/core/table.rs:276-288 | the key of the first record `select_many` returns selects at least one row, so `upsert_by`'s update finds its row |
| DbTable.Declaring | src/db/core/table.rs:340-352 | the columns carrying a constraint are exactly those whose declaration contains it in any letter case |
| DbTable.MatchingStep | src/db/core/table.rs:85-87 | scanning one more row adds it to the selection exactly when it satisfies the clause |
| DbTable.MatchingAll | src/db/core/table.rs:97-107 | the clause `1=1` selects every row, in order |
| DbTable.Placeholders | src/db/core/table.rs:116 | `n` placeholders, the `i`-th being `?{i+1}` |
| DbTable.PlaceholderInjective | src/db/core/table.rs:116 | distinct parameter positions get distinct placeholders |
| DbTable.AppendOneMatch | src/db/core/table.rs:111-139 | after appending a row under a fresh key, that row is the only match for the key |
| DbTable.AppendFreshKey | src/db/core/table.rs:111-139 | after appending an inserted row under a fresh key, selecting the key returns the stamped record |
| DbTable.UpdateColumnsInLayout | src/db/core/table.rs:192-198 | on an aligned table the update names each data column and `updated_at` once, never the key or `created_at`, and only columns that exist |
| DbTable.UpdatedProjection | src/db/core/table.rs:192-216 | after the assignments a row reads back with its key and `created_at` kept, the data replaced and `updated_at = now` |
| TableMacro.Names | src/db/core/macros.rs:70-84 | the insert and update column lists hold the field names in declaration order |
| TableMacro.AllColumns | src/db/core/macros.rs:86-95 | the columns are `id`, the data fields in order, then `created_at` and `updated_at` |
| TableMacro.ParamsMatchColumns | src/db/core/macros.rs:54-84 | the insert and update lists agree, and each holds exactly one value per data column, matched by position |
| TableMacro.ColumnIndices | src/db/core/macros.rs:97-115 | there is one index per column and index `i` is `i` |
| TableMacro.GetColumn | src/db/core/macros.rs:45-50 | reading a column succeeds exactly when the position exists and its value has the field's type, and gives that value |
| TableMacro.ReadFields | src/db/core/macros.rs:46-48 | the data fields read succeed exactly when every position holds a value of its field's type, and give those values |
| TableMacro.FromRow | src/db/core/macros.rs:42-52 | a row is read when it is readable, as the key at 0, the fields at 1..n, `created_at` at n+1 and `updated_at` at n+2 |
| TableMacro.RowOf | src/db/core/macros.rs:86-95 | a record's row has one value per column of `all_columns` |
| TableMacro.RowRoundTrip | src/db/core/macros.rs:42-95 | reading back the row of a well-formed record gives the record |
| TableMacro.FromRowOnlyRowsOf | src/db/core/macros.rs:42-52 | every row `from_row` accepts is, up to extra columns, the row of a well-formed record |
| DbSchema.ColumnDefsText | src/db/core/schema.rs:55-60 | the text read is a slice of the statement; the slice panic when `(` comes after the last `)` is an error |
| DbSchema.ColumnDefsOfCreate | src/db/core/schema.rs:55-60 | for `CREATE TABLE` and a name without `(`, the text read is exactly what the outer parentheses enclose |
| DbSchema.Pieces | src/db/core/schema.rs:62-83 | splitting gives at least one piece |
| DbSchema.PiecesStep | src/db/core/schema.rs:67-83 | one more character: a comma at depth zero starts a new piece, any other character extends the current one and moves the depth by its parenthesis |
| DbSchema.SplitColumnDefs | src/db/core/schema.rs:62-86 | the loop returns the trimmed pieces, dropping a blank last one |
| DbSchema.SplitDone | src/db/core/schema.rs:84-86 | after the last character the buffer, if not blank, is the last part |
| DbSchema.PiecesJoin | src/db/core/schema.rs:62-83 | joining the pieces with commas gives back the text, so nothing is lost or reordered |
| DbSchema.PiecesNoTopLevelComma | src/db/core/schema.rs:77-80 | no piece holds a comma at depth zero |
| DbSchema.NestedCommasDoNotSplit | src/db/core/schema.rs:69-80 | a text whose every comma is inside parentheses is one piece, so `DECIMAL(10, 2)` stays whole |
| DbSchema.FirstDefault | src/db/core/schema.rs:133 | the position found is the first `DEFAULT` among all the words, and none exactly when there is no `DEFAULT` |
| DbSchema.ScanWords | src/db/core/schema.rs:125-140 | `not_null` exactly when some word after the type is `NOT` or `NULL`; `primary_key` exactly when one is `PRIMARY` or `KEY`; the default is the word after the first `DEFAULT` of the part, when a `DEFAULT` follows the type |
| DbSchema.ParseColumn | src/db/core/schema.rs:88-142 | one part gives the column, a skip, or the word-count panic, as the reading rules say |
| DbSchema.ColumnOfSkips | src/db/core/schema.rs:89-97 | a non-blank part is skipped exactly when it starts, in upper case, with `PRIMARY KEY`, `UNIQUE`, `FOREIGN KEY` or `CHECK` |
| DbSchema.ColumnOfWordCount | src/db/core/schema.rs:107-125 | a non-constraint part of one word panics at `words[2..]`; one of two or more words is a column |
| DbSchema.TypeOfMeaning | src/db/core/schema.rs:114-123 | `INTEGER` with `PRIMARY KEY` anywhere in the part reads as `TEXT`; any other type is the second word in upper case |
| DbSchema.GetTableSchema | src/db/core/schema.rs:43-149 | the schema is the one the reading rules give for the statement |
| DbSchema.ParseParts | src/db/core/schema.rs:88-148 | the loop collects the columns of the parts in order |
| DbSchema.ColumnsOfStep | src/db/core/schema.rs:88-143 | one part of the loop: a panic ends it, a column is appended, a skipped part changes nothing |
| DbSchema.GetDatabaseSchema | src/db/core/schema.rs:23-40 | the map is the one built from the catalogue's user tables |
| DbSchema.SchemasOfFailure | src/db/core/schema.rs:34-37 | once a table fails to read, the whole call fails with its message |
| DbSchema.SchemasOfSnoc | src/db/core/schema.rs:34-37 | one catalogue entry more: success needs it readable, and a user table adds its schema under its name |
| DbSchema.SchemasOfOk | src/db/core/schema.rs:23-40 | reading fails exactly when some user table cannot be read |
| DbSchema.SchemasOfKeys | src/db/core/schema.rs:27-37 | every key of the map is a user table of the catalogue, not `sqlite_%` or the migrations table |
| DbSchema.SchemasOfValues | src/db/core/schema.rs:34-37 | with distinct table names, every user table is in the map, read from its own statement |
| DbSchema.ColumnNames | src/db/core/schema.rs:190-199 | the names of the columns, in order |
| DbSchema.LastNamed | src/db/core/schema.rs:190-194 | the column a name maps to is one of the columns with that name |
| DbSchema.Alters | src/db/core/schema.rs:202-214 | one `ALTER TABLE ... ADD COLUMN` per missing name |
| DbSchema.Notes | src/db/core/schema.rs:218-221 | one down-note per missing name |
| DbSchema.Warnings | src/db/core/schema.rs:226-232 | one warning per extra name |
| DbSchema.DiffSchemas | src/db/core/schema.rs:152-238 | with no actual table, one `CREATE TABLE IF NOT EXISTS` and one `DROP TABLE IF EXISTS`; otherwise an `ALTER` and a note for exactly the expected names the table lacks and a warning for exactly the actual names not expected, each name once |
| DbSchema.AbsentMeaning | src/db/core/schema.rs:202-203 | the absent keys are exactly the keys not present, each once |
| DbSchema.CollectMissing | src/db/core/schema.rs:202-223 | the loop gives the `ALTER`s and notes for the absent keys |
| DbSchema.CollectExtra | src/db/core/schema.rs:226-233 | the loop gives the warnings for the unexpected keys |
| DbSchema.NamesNotIn | src/db/core/schema.rs:202-233 | the names of one list the other lacks |
| DbSchema.DiffCounts | src/db/core/schema.rs:188-234 | one down-note per missing name, up statements one more per extra name, and no statement at all exactly when both tables have the same column names |
| DbSchema.GenerateMigrationFromSchemaDiff | src/db/core/schema.rs:242-261 | visits every target table once; the up and down statements are the `diff_schemas` statements of each table concatenated in that order; none exactly when every target table exists with the same column names |
| DbSchema.TableDiff | src/db/core/schema.rs:249-253 | the statements `diff_schemas` gives for one target table, none exactly when it is in sync |
| DbGenerator.PragmaColumns | src/db/core/generator.rs:53-62 | one column per `PRAGMA table_info` row, in order, each read from its row |
| DbGenerator.MarkUniqueColumns | src/db/core/generator.rs:104-115 | every column of the array is marked in place by the `CREATE TABLE` text, and no other change is made |
| DbGenerator.CollectUniqueConstraints | src/db/core/generator.rs:65-94 | the loop collects the constraints of the unique indexes |
| DbGenerator.UniqueConstraintsMeaning | src/db/core/generator.rs:74-94 | each constraint is the non-empty column list of a unique index, and every unique index with columns gives one |
| DbGenerator.ReadTableInfo | src/db/core/generator.rs:41-124 | one table's info is built from its PRAGMA rows, index list and statement |
| DbGenerator.TableInfoMeaning | src/db/core/generator.rs:53-124 | column by column: the PRAGMA order and name, the upper-cased type, both flags, and unique exactly when the statement says so |
| DbGenerator.UniqueByConstraint | src/db/core/generator.rs:105-113 | a `UNIQUE(name)` anywhere in the statement marks the column, whatever the letter case |
| DbGenerator.IdNeverUnique | src/db/core/generator.rs:105 | the `id` column is never marked |
| DbGenerator.StructNameOfSegments | src/db/core/generator.rs:279-293 | the struct name is the `_`-separated segments capitalised, joined, and followed by `Row` |
| DbGenerator.StructNameShape | src/db/core/generator.rs:279-293 | a struct name has no `_` before its `Row` suffix |
| DbGenerator.FieldName | src/db/core/generator.rs:296-302 | every column keeps its own name, `hostname_field` included |
| DbGenerator.RustTypeMeaning | src/db/core/generator.rs:305-326 | a field is an `Option` exactly when its column may be NULL, and unwrapped it is the base type of the SQL type |
| DbGenerator.DefaultOfColumn | src/db/core/generator.rs:396-411 | the fresh-row default is `None` for a nullable column, and for a NOT NULL one `0` for INTEGER, `Default::default()` for REAL or BLOB, and `String::new()` for the rest |
| DbGenerator.DataFieldsMeaning | src/db/core/generator.rs:150-154 | the filter keeps exactly the columns other than `id`, `created_at` and `updated_at`, in order |
| DbGenerator.Views | src/db/core/generator.rs:162-167 | one view per field |
| DbGenerator.FieldLines | src/db/core/generator.rs:162-167 | one line per field |
| DbGenerator.RenderFieldLines | src/db/core/generator.rs:340-350 | the pushes give the rendered lines, each ended by a newline |
| DbGenerator.GenerateFieldUpdates | src/db/core/generator.rs:530-540 | the updates are one rendered line per data field |
| DbGenerator.PlainView | src/db/core/generator.rs:305-326 | no Rust type and no default holds a line break |
| DbGenerator.PlainFieldLine | src/db/core/generator.rs:162-167 | a field with one-line names renders on one line |
| DbGenerator.PlainLinesOf | src/db/core/generator.rs:162-167 | the rendered text splits back into the rendered lines |
| DbGenerator.FieldUpdatesLines | src/db/core/generator.rs:530-540 | the updates read back as `row.f = data.f;` for each data field, in order |
| DbGenerator.BuildStructFields | src/db/core/generator.rs:157-169 | the struct body is the field lines, each ended by a newline |
| DbGenerator.StructFieldsLayout | src/db/core/generator.rs:157-169 | `id: String` first, one `pub name: type` per data field in column order, then `created_at` and `updated_at` as `i64` |
| DbGenerator.StructFieldsReadBack | src/db/core/generator.rs:157-169 | with one-line column names the struct body reads back as those lines |
| DbGenerator.FieldNames | src/db/core/generator.rs:166-176 | one field name per column |
| DbGenerator.FieldNamesAt | src/db/core/generator.rs:166-176 | the `impl_table_auto` field list names every data column, in order |
| DbGenerator.DeleteByMeaning | src/db/core/generator.rs:492-514 | every `delete_by_` function comes from a single-column constraint and every such constraint gets one; wider ones get none |
| DbGenerator.GenerateCrudOperations | src/db/core/generator.rs:329-527 | the parts are those of the data fields and constraints |
| DbGenerator.CollectDeleteBy | src/db/core/generator.rs:492-514 | the loop gives one `delete_by_` per single-column constraint |
| DbGenerator.DefaultLinesMeaning | src/db/core/generator.rs:396-411 | the fresh row of the upsert gives each data field, in order, its default |
| DbGenerator.CrudPartsAgree | src/db/core/generator.rs:338-350 | the `Data` struct's fields are the table struct's lines between `id` and the timestamps |
| DbGenerator.GenerateTable | src/db/core/generator.rs:143-239 | the file for one table is named `<table>.rs` and holds that table's struct, field list and operations |
| DbGenerator.ModLines | src/db/core/generator.rs:241 | one `pub mod` line per table |
| DbGenerator.GenerateStructs | src/db/core/generator.rs:131-276 | each table once in some order, one file per table in that order with distinct names, and the `pub mod` and export lines in the same order |
| DbGenerator.GenerateInOrder | src/db/core/generator.rs:143-245 | for a given order, the files and lines of each table in turn |
| DbGenerator.FilesOf | src/db/core/generator.rs:143-239 | one file per table, named after it |
| DbGenerator.FilesOfAt | src/db/core/generator.rs:143-239 | the `i`-th file is the one generated for the `i`-th table |
| DbGenerator.ModStep | src/db/core/generator.rs:241 | the next `pub mod` line extends the text |
| DbGenerator.ExportsStep | src/db/core/generator.rs:242-244 | the next three export lines extend the text |
| DbGenerator.FilesStep | src/db/core/generator.rs:233-239 | the next table's file extends the list |
| DbGenerator.FileNamesDistinct | src/db/core/generator.rs:146 | distinct tables get distinct file names |
| DbErrors.WithContext | src/db/core/errors.rs:10-17 | `.context(c)` makes `c` the message shown and keeps the root error |
| DbErrors.FirstRule | src/db/core/errors.rs:8-19 | the rule chosen occurs in the message, and there is none exactly when no rule's pattern occurs |
| DbErrors.FirstRuleOfRules | src/db/core/errors.rs:8-19 | the patterns are tried in the order UNIQUE, FOREIGN KEY, NOT NULL |
| DbErrors.HandleDbErrorFollowsRules | src/db/core/errors.rs:7-20 | a failure with a message gets the first matching rule's prefix and hint, or the generic prefix and no context |
| DbErrors.ClassifyPriority | src/db/core/errors.rs:9-19 | UNIQUE wins whatever else the message says; FOREIGN KEY counts only without UNIQUE; NOT NULL only without both; otherwise generic |
| DbErrors.HandleDbErrorShows | src/db/core/errors.rs:5-27 | the root message always ends with SQLite's own text; a classified violation shows its hint, otherwise `Database error: ` and the text |
| DbErrors.ExecuteWithErrorHandlingMeaning | src/db/core/errors.rs:30-37 | a success passes through unchanged; a failure shows `Database operation failed` over the handled error's root and contexts |
| HostInfoTable.NewRow | src/db/generated/host_info.rs:55-74 | the row `insert_one` builds has an empty key, zero timestamps and exactly the given data |
| HostInfoTable.ValueBack | src/db/core/macros.rs:42-52 | a value that fits its column reads back as itself, as text or as an integer |
| HostInfoTable.IntValueFits | src/db/generated/host_info.rs:12-26 | an optional integer fits a nullable integer column exactly when it is absent or within the column's 64- or 32-bit range |
| HostInfoTable.RecordInverse | src/db/generated/host_info.rs:12-34 | the struct is recovered from its record, in either field order |
| HostInfoTable.RecordFits | src/db/generated/host_info.rs:12-26 | the record of a struct fits the table exactly when its integers are in range |
| HostInfoTable.RecordFitsAsWritten | src/db/generated/host_info.rs:29-34 | the same holds for the field list as written |
| HostInfoTable.RecordsAreRows | src/db/generated/host_info.rs:12-26 | every record that fits the table is the record of some struct |
| HostInfoTable.HostInfoAligned | src/db/migrations/004_fix_host_info_id_column.rs:93-108 | with the corrected field list the struct's columns are exactly the migrated table's, in order and without repeats |
| HostInfoTable.LayoutNamesDiffer | src/db/migrations/004_fix_host_info_id_column.rs:93-108 | the migrated table's column names are pairwise distinct |
| HostInfoTable.ProjectBound | src/db/core/table.rs:111-139 | a column stored by name reads back at its position in the layout |
| HostInfoTable.StoredColumnAsWritten | src/db/generated/host_info.rs:29-34 | as written, layout column `i` receives the struct's value from the as-written position of that column |
| HostInfoTable.StoredAsWritten | src/db/core/table.rs:111-139 | storing by column name puts each field in its own column, whatever the field order |
| HostInfoTable.AsWrittenColumns | src/db/generated/host_info.rs:29-34 | the as-written columns are the migrated ones with `hostname_field` moved after `backup_path`, without repeats |
| HostInfoTable.AsWrittenNamesDiffer | src/db/generated/host_info.rs:29-34 | the as-written column names are pairwise distinct |
| HostInfoTable.AsWrittenReadRotates | src/db/generated/host_info.rs:29-34 | as written, a struct stored in the migrated table reads back by position with `tailscale`, `backup_path` and `hostname_field` rotated |
| HostInfoTable.AsWrittenRoundTripFails | src/db/generated/host_info.rs:29-34 | as written, the round trip holds exactly when `tailscale`, `hostname_field` and `backup_path` are equal |
| HostInfoTable.AsWrittenExample | src/db/generated/host_info.rs:29-34 | as written, a host with only a Tailscale name reads back with none |
| HostInfoTable.ReadRoundTrip | src/db/generated/host_info.rs:29-34 | corrected to the migrated column order, every struct in range reads back as itself |
| HostInfoTable.InsertOne | src/db/generated/host_info.rs:55-74 | the table changes as `DbTable::insert` of the fresh row does, so the migrated table's `hostname` constraints apply |
| HostInfoTable.MigrationConstraints | src/db/migrations/004_fix_host_info_id_column.rs:93-108 | the recreated table's declarations give the migrated layout, NOT NULL on `hostname`, `created_at` and `updated_at`, and UNIQUE on `hostname` alone |
| HostInfoTable.DeclaredConstraints | src/db/migrations/004_fix_host_info_id_column.rs:93-108 | of the thirteen declarations, only `hostname` and the two timestamps say NOT NULL, and only `hostname` says UNIQUE |
| HostInfoTable.InsertedColumns | src/db/generated/host_info.rs:55-74 | the row `insert_one` stores holds the data's host name and `now` in both timestamps |
| HostInfoTable.MigratedInsertChecks | src/db/core/table.rs:111-139 | on the migrated table the NOT NULL check of an insert comes down to the host name being set, and the UNIQUE check to no row holding it |
| HostInfoTable.InsertOneMeaning | src/db/generated/host_info.rs:55-74 | on the migrated table, an insert of data in range succeeds exactly when the data has a host name, the key is new and no row holds that host name; a refusal changes nothing; the constraints stay; on success one row is appended holding the host name, and the new key reads back as the data with both timestamps `now` |
| HostInfoTable.InsertMany | src/db/generated/host_info.rs:77-100 | the table and result are those of inserting each input in turn, stopping at the first error |
| HostInfoTable.InsertManyMeaning | src/db/generated/host_info.rs:77-100 | earlier rows are kept; on success one key per input, in input order, and one row per input; on failure fewer rows than inputs were added |
| HostInfoTable.InsertManyFreshIds | src/db/generated/host_info.rs:77-100 | with distinct keys that no row has, on the migrated table every insert succeeds, returning all the keys in order, exactly when the host names are all set, not yet stored and pairwise distinct |
| HostInfoTable.FreshAfterFirst | src/db/generated/host_info.rs:80-98 | the first insert succeeds exactly when its host name is set and new; then the remaining keys are still absent and the stored host names are the earlier ones and this one |
| HostInfoTable.InsertableAfterFirst | src/db/generated/host_info.rs:80-98 | once the first host name is stored, the rest can be inserted exactly when the whole list could |
| HostInfoTable.HostnamesAfterAppend | src/db/generated/host_info.rs:80-98 | appending a row adds its host name to the stored ones and nothing else |
| HostInfoTable.NewKeyOnlyInLastRow | src/db/core/table.rs:111-139 | an absent key other than the inserted one is still absent after the insert |
| HostInfoTable.UpsertRow | src/db/generated/host_info.rs:109-154 | the builder keeps the existing row's key and timestamps and takes every data field from the data; with no row it builds the fresh row |
| HostInfoTable.UpsertOne | src/db/generated/host_info.rs:104-157 | the table changes as `DbTable::upsert_by` with that builder does |
| HostInfoTable.UpsertOneMeaning | src/db/generated/host_info.rs:104-157 | a failed lookup fails and changes nothing; no match inserts the data as `insert_one` does; otherwise the first match is updated under its own key, never replaced, which is refused, changing nothing, exactly when the data has no host name or that host name would repeat, and on success returns the key with the row count unchanged |
| HostInfoTable.MigratedUpdateChecks | src/db/generated/host_info.rs:109-154 | on the migrated table, updating a struct whose key some row has is refused exactly when it has no host name or the host name would repeat, and a refusal changes nothing |
| HostInfoTable.MigratedAssignChecks | src/db/core/table.rs:192-224 | on the migrated table the NOT NULL check of an update comes down to the assigned host name being set, and the UNIQUE check to it not repeating |
| HostInfoTable.FirstMatchInRange | src/db/core/table.rs:80-94 | a record decoded from the migrated table has its integers in range |
| HostInfoTable.SelectOne | src/db/generated/host_info.rs:160-163 | corrected field order: the last match as a struct, none when nothing matches, and the error when the select fails |
| HostInfoTable.SelectMany | src/db/generated/host_info.rs:166-169 | corrected field order: every match as a struct in row order, or the select's error |
| HostInfoTable.DeleteById | src/db/generated/host_info.rs:172-175 | the table changes as `delete_many` on the key does |
| HostInfoTable.DeleteByHostname | src/db/generated/host_info.rs:178-181 | the table changes as `delete_many` on the `hostname` column does |
| HostInfoTable.DeleteByHostnameMeaning | src/db/generated/host_info.rs:178-181 | exactly the rows whose `hostname` is the name are removed and counted; the rest stay, in order |
| HostInfoTable.DeleteByHostnameOnlyHostname | src/db/generated/host_info.rs:178-181 | two rows with the same `hostname` are both kept or both removed, whatever their other columns |
| Migration004.MappingFollowsInsertList | src/db/migrations/004_fix_host_info_id_column.rs:115-150 | each mapping pair names one column twice, and the pairs follow the `INSERT` column list after `id` |
| Migration004.Hex | src/db/migrations/004_fix_host_info_id_column.rs:113 | `hex` gives two digits per byte |
| Migration004.LowerHexDigits | src/db/migrations/004_fix_host_info_id_column.rs:113 | lower-cased, `hex` of `n` bytes is `2n` lower-case hex digits, and `2n - 1` without its first digit |
| Migration004.UuidShape | src/db/migrations/004_fix_host_info_id_column.rs:113 | every draw whose `random()` is not the smallest 64-bit integer yields a version-4 UUID of the shape `xxxxxxxx-xxxx-4xxx-yxxx-xxxxxxxxxxxx` |
| Migration004.BuildSelectList | src/db/migrations/004_fix_host_info_id_column.rs:113-141 | the select list starts with the UUID; each mapped column is copied exactly when the old table has it, otherwise `strftime` for the timestamps and `NULL` for the rest |
| Migration004.SelectList | src/db/migrations/004_fix_host_info_id_column.rs:113-141 | one item per column of the new table, the first being the UUID |
| Migration004.SelectListAgrees | src/db/migrations/004_fix_host_info_id_column.rs:113-141 | the select-list rules determine the list uniquely |
| Migration004.Restrict | src/db/migrations/004_fix_host_info_id_column.rs:77-85 | a backup row keeps the value of every listed column |
| Migration004.Values | src/db/migrations/004_fix_host_info_id_column.rs:144-158 | one value per select item, each the item evaluated on the backup row |
| Migration004.UnknownCopy | src/db/migrations/004_fix_host_info_id_column.rs:144-158 | none exactly when every copied column exists in the backup |
| Migration004.Database.constructor | src/db/migrations/004_fix_host_info_id_column.rs:6 | the database starts with the given tables |
| Migration004.Database.Up | src/db/migrations/004_fix_host_info_id_column.rs:6-168 | the tables and result are those of the statement sequence of `up`, each failure ending it |
| Migration004.Database.Recreate | src/db/migrations/004_fix_host_info_id_column.rs:76-165 | the backup, drop, create, restore and final drop, with the effect of `RecreateEffect` |
| Migration004.Database.Down | src/db/migrations/004_fix_host_info_id_column.rs:171-175 | a rollback always fails with the one-way message and changes no table |
| Migration004.NewColumnsDistinct | src/db/migrations/004_fix_host_info_id_column.rs:93-107 | the recreated table's columns are distinct and begin with `id` |
| Migration004.RestoredColumn | src/db/migrations/004_fix_host_info_id_column.rs:130-158 | column `k` of a restored row is the new key for `k = 0`, otherwise the old value when the column existed, else the current time for a timestamp and `NULL` otherwise |
| Migration004.RestoredRow | src/db/migrations/004_fix_host_info_id_column.rs:130-158 | a restored row is keyed by its UUID and has every other column copied or defaulted |
| Migration004.UpOutcome | src/db/migrations/004_fix_host_info_id_column.rs:6-168 | `up` succeeds exactly when the table is missing, already has `id`, or the restore succeeds; on success `host_info` has `id`; other tables are untouched; a backup failure changes nothing; a restore failure leaves an empty new table beside the backup |
| Migration004.UpIdempotent | src/db/migrations/004_fix_host_info_id_column.rs:45-57 | after a successful `up`, running it again succeeds and changes nothing |
| Migration004.RetryAfterFailedRestore | src/db/migrations/004_fix_host_info_id_column.rs:144-158 | after a failed restore a second `up` succeeds without touching anything, leaving the old rows only in the backup |
| Migration004.NoUnknownCopy | src/db/migrations/004_fix_host_info_id_column.rs:130-141 | every column the select list copies exists in the backup |
| Migration004.UpRebuildsRows | src/db/migrations/004_fix_host_info_id_column.rs:57-165 | without a stale backup, a table lacking `id` is rebuilt row for row: success exactly when every UUID draw and insert succeeds, and then row `i` is keyed by draw `i` with its other columns copied or defaulted, and no backup remains |
| Migration004.UpRestoresStaleBackup | src/db/migrations/004_fix_host_info_id_column.rs:78-85 | a backup left by an earlier run survives `CREATE TABLE IF NOT EXISTS` and is what gets restored; the table's own rows are dropped |
| Migrate.DescriptionMeaning | src/commands/migrate.rs:79-85 | no words is an error; otherwise the description has one character per character of the words joined by `_`, each lower-cased, with `_` for every space, so it has no space and no upper-case letter |
| Migrate.HighestVersion | src/commands/migrate.rs:93-110 | the directory loop returns the largest version declared by a `.rs` entry other than `mod.rs`, or 0 |
| Migrate.MaxVersionBound | src/commands/migrate.rs:100-105 | no entry declares a version above the maximum, which fits a `u32` |
| Migrate.MaxVersionAttained | src/commands/migrate.rs:100-105 | unless it is 0, the maximum is the version some entry declares; entries whose first segment is not a `u32` do not count |
| Migrate.TrimEndKeepsPrefix | src/commands/migrate.rs:101 | stripping trailing `.rs` never reaches into a prefix whose last character is not in the pattern |
| Migrate.FirstSegment | src/commands/migrate.rs:101-102 | the first `_`-separated piece of `a_rest` is `a` when `a` has no `_` |
| Migrate.FileNameRoundTrip | src/commands/migrate.rs:100-114 | the next run reads back from `{:03}_{desc}.rs` the version it was named with |
| Migrate.NextVersionAfterCreate | src/commands/migrate.rs:93-114 | once the created file is in the directory, the maximum is its version, so versions keep increasing |
| Migrate.EscapeRoundTrip | src/commands/migrate.rs:140-143 | the `{:?}` literal, with its short escapes and `\u{…}` for other control characters, denotes the SQL text again and has no bare double quote |
| Migrate.UnescapeChar | src/commands/migrate.rs:140-143 | each escaped character reads back as itself, whatever follows it |
| Migrate.ReadUnicodeEscape | src/commands/migrate.rs:140-143 | the `\u{…}` escape of a control character reads back as that character and takes its own length |
| Migrate.LowerHexValue | src/commands/migrate.rs:140-143 | the lower-case hex digits of a control character's code denote the code again |
| Migrate.LowerHex | src/commands/migrate.rs:140-143 | a code below 256 is written as one or two hex digits |
| Migrate.BuildBody | src/commands/migrate.rs:118-172 | the body is the placeholder when there is no SQL, otherwise one comment line or `conn.execute` block per statement in order, then `Ok(())` |
| Migrate.CommentLines | src/commands/migrate.rs:136-139 | a body of one-line `--` statements reads back as those statements indented by four spaces |
| Migrate.Indented | src/commands/migrate.rs:138 | one indented line per line |
| Migrate.CreateMigrationFile | src/commands/migrate.rs:90-208 | the file named with the next version and the description, its content built from both bodies; a missing directory counts as empty, and an overflowing version is an error |
| Migrate.GenerateMigration | src/commands/migrate.rs:76-87 | an empty description errors before the directory is read; otherwise the file of `create_migration_file` with both placeholder bodies |
| Smb.MountPointInjective | src/smb.rs:90 | distinct (server, share) pairs get distinct mount points `/mnt/smb/<server>/<share>` when server names have no `/` |
| Smb.BuildMountOptions | src/smb.rs:244-250 | the options are `username`, `password`, `uid`, `gid` and the extra options when set, joined by commas |
| Smb.MountOptionsReadBack | src/smb.rs:244-250 | with no comma inside a field, splitting the options at commas gives the fields back |
| Smb.FstabEntryFields | src/smb.rs:275-278 | the entry is the six fields `<share> <mount> cifs <opts>,_netdev 0 0` joined by single spaces, and it names its mount point |
| Smb.FstabEntryReadBack | src/smb.rs:275-278 | with no space inside a field, the entry splits at spaces into exactly its six fields |
| Smb.AddFstabIdempotent | src/smb.rs:292-307 | nothing is written when a line already names the mount point; otherwise the entry becomes the last line, and adding it again writes nothing |
| Smb.Without | src/smb.rs:311-314 | the filter keeps at most the lines it was given |
| Smb.WithoutMeaning | src/smb.rs:311-319 | the kept lines are exactly those without the mount point, and none is dropped exactly when no line names it |
| Smb.RemoveFstabMeaning | src/smb.rs:309-327 | nothing is written when no line names the mount point; otherwise the file becomes the other lines joined by newlines, unless that is empty |
| Smb.JoinedLinesAvoid | src/smb.rs:321 | joining newline-free lines of which none names the mount point gives a file with no such line |
| Smb.KeptLinesPlain | src/smb.rs:311-314 | when every line holding some text also names the mount point, the kept lines have no line break and none holds that text |
| Smb.RemoveClears | src/smb.rs:309-327 | unless the file would be left empty, no line names the mount point after a removal, so a second removal writes nothing |
| Smb.RemoveKeepsClear | src/smb.rs:309-327 | a removal never brings back a line naming another mount point |
| Smb.RemoveKeepsWhenAllMatch | src/smb.rs:321-325 | when every line names the mount point the file is not written, so the entry stays |
| Smb.AddFstabSteps | src/smb.rs:292-307 | a failed read of `/etc/fstab` is its error; an entry already present writes nothing and succeeds; otherwise the write to `/tmp/fstab.new`, then the `sudo mv`, must succeed, the first failure being the result, and success yields the file with the entry as last line |
| Smb.SetupShare | src/smb.rs:157-290 | no username, then no password, is an error; a `sudo mkdir -p` that cannot be run is its error; an already mounted share is left alone; a failed uid, then gid, lookup is its error; a failed mount is an error; otherwise the share is mounted with the options and the outcome is that of adding its fstab entry, so a failed fstab read, write or `sudo mv` is the error; success with a mount implies every one of those steps succeeded |
| Smb.SetupRecordsMount | src/smb.rs:268-279 | after a successful mount `/etc/fstab` names the mount point, and adding the entry again writes nothing |
| Smb.ServerTargets | src/smb.rs:89-101 | one target per share of the server, in its configured order |
| Smb.PlanOfMeaning | src/smb.rs:88-102 | every configured share of every server is mounted, and nothing else |
| Smb.PlanMounts | src/smb.rs:88-102 | the nested loops give the plan |
| Smb.UninstallFstab | src/smb.rs:333-367 | the uninstall removes the fstab entry of each configured mount point in turn |
| Smb.UninstallClears | src/smb.rs:333-367 | unless a removal would have emptied the file, no line of the result names any uninstalled mount point |
| Smb.UninstalledKeepsClear | src/smb.rs:333-367 | the uninstall never brings back a line naming another mount point |
| Npm.ParseServiceSpec | src/services/npm.rs:308-324 | `name:port` splits at the first `:` and succeeds exactly when the port is a `u16`, else `Invalid port`; a bare name is accepted only when it is a known service, keeping its own spelling, else `Unknown service` |
| Npm.ServiceSpecRoundTrip | src/services/npm.rs:308-312 | a name without `:` and a port in range read back from `name:port` |
| Npm.ServiceSpecIgnoresCase | src/services/npm.rs:315-323 | bare names that differ only in case are accepted or refused together, with the same port |
| Npm.KnownPortMeaning | src/services/npm.rs:315-322 | only `portainer` (port 9000) and `npm` or `nginx-proxy-manager` (port 81) are known, in any case |
| Npm.DomainInjective | src/services/npm.rs:121 | distinct services get distinct `<service>.local` domains |
| Npm.FirstPort | src/services/npm.rs:170-179 | the host side of the first port mapping, when present, is a `u16` |
| Npm.FirstPortMapping | src/services/npm.rs:170-179 | a first mapping `host:container` with a `u16` host port gives that port |
| Npm.Ports | src/services/npm.rs:168-184 | one (name, port) reading per service entry |
| Npm.CollectKeys | src/services/npm.rs:168-184 | a name is collected exactly when some entry exposes it |
| Npm.CollectLastWins | src/services/npm.rs:177 | the collected port is that of the last entry exposing the name |
| Npm.ComposeServicesMeaning | src/services/npm.rs:167-185 | a service is collected exactly when an entry under its string name has a parsable first port, and its port is that of the last such entry |
| Npm.ParseComposeServices | src/services/npm.rs:155-188 | nothing for no documents or no `services` mapping; otherwise the services of the first document |
| Npm.FirstListing | src/services/npm.rs:125-127 | the index found is the first host from the start point that lists the domain, and none exactly when no later host does |
| Npm.FindExisting | src/services/npm.rs:125-127 | the host found is the first listing the domain, and none exactly when no host lists it |
| Npm.RequestsForMeaning | src/services/npm.rs:120-149 | a request is sent exactly for the visited services whose domain no existing host lists |
| Npm.ForwardHost | src/services/npm.rs:60-66 | the IP when configured, else the Tailscale name, else the no-address error |
| Npm.SetupProxyHosts | src/services/npm.rs:53-153 | a failed host lookup or a host without address fails; no services is success without contacting the proxy manager; a failed login or listing fails; otherwise exactly the needed requests are sent, a failed creation not stopping the loop |
| Npm.SendRequests | src/services/npm.rs:120-149 | the loop sends the requests of the services in turn |
| Npm.SingleProxyHost | src/services/npm.rs:303-389 | a bad spec fails before the host is looked up; an existing host for the domain means nothing is created; otherwise one request for `<service>.local` to the host's address and port, whose failure is an error |
| DockerBuild.DockerBuildConfig.constructor | src/services/docker/build.rs:16-24 | a new configuration has its Dockerfile and context, no target, no build arguments and no tags |
| DockerBuild.DockerBuildConfig.WithTarget | src/services/docker/build.rs:26-29 | sets the target and changes nothing else |
| DockerBuild.DockerBuildConfig.WithBuildArg | src/services/docker/build.rs:31-34 | appends one build argument and changes nothing else |
| DockerBuild.DockerBuildConfig.WithTag | src/services/docker/build.rs:36-39 | appends one tag and changes nothing else |
| DockerBuild.DockerBuildConfig.WithTags | src/services/docker/build.rs:41-44 | extends the tags, the earlier ones staying in front, and changes nothing else |
| DockerBuild.KeyValues | src/services/docker/build.rs:52-55 | one `key=value` per build argument, in order |
| DockerBuild.FlagOf | src/services/docker/build.rs:56-80 | a recognised flag is the text it was read from |
| DockerBuild.FlagOfText | src/services/docker/build.rs:56-80 | every flag's text is recognised as that flag |
| DockerBuild.BuildArgvReadBack | src/services/docker/build.rs:48-83 | the argument list starts with `build` and reads back as every `--build-arg` and every `-t` in order, the one `-f` Dockerfile, `--target` when set and the context last |
| DockerBuild.TargetIffSet | src/services/docker/build.rs:77-80 | `--target` appears exactly when a target is set |
| DockerBuild.BuildImage | src/services/docker/build.rs:48-95 | the argument list is the one above; a docker that cannot start is `Failed to build Docker image`, and a failed build `Docker build failed` |
| DockerBuild.PushImages | src/services/docker/build.rs:98-121 | success exactly when every push succeeds; pushes are attempted in tag order, and the first failing one ends the run with its own error |
| DockerBuild.HttpsNoColonHost | src/services/docker/build.rs:138 | an HTTPS remote has no `github.com:` in it |
| DockerBuild.HttpsRemoteAsWritten | src/services/docker/build.rs:136-141 | as written, an HTTPS remote gives `unknown`, since its fourth piece has no `.git` to strip |
| DockerBuild.SshRemoteAsWritten | src/services/docker/build.rs:136-141 | as written, an SSH remote without a line break gives the repository name in place of the user |
| DockerBuild.SshRemoteLineEndAsWritten | src/services/docker/build.rs:129-141 | as written, the SSH remote as git prints it (ending in a line break) gives `unknown`, since the line break keeps `.git` from being a suffix |
| DockerBuild.GithubUser | src/services/docker/build.rs:124-147 | corrected: `GITHUB_USER` first, then `GITHUB_REPOSITORY_OWNER`, then the owner read off the trimmed remote, else `unknown` |
| DockerBuild.GithubUserAsWritten | src/services/docker/build.rs:124-147 | as written, the result agrees with the corrected one whenever an environment variable is set or git gives no output, and without the variables it never holds a `/` |
| DockerBuild.RemoteUserAsWritten | src/services/docker/build.rs:136-141 | as written, a user read off the remote is one `/`-piece of the output with `.git` removed |
| DockerBuild.SshRemoteOwner | src/services/docker/build.rs:135-141 | corrected: the SSH form, with or without git's line break, gives its owner |
| DockerBuild.HttpsRemoteOwner | src/services/docker/build.rs:135-141 | corrected: the HTTPS form, with or without git's line break, gives its owner |
| DockerBuild.GitHash | src/services/docker/build.rs:150-165 | the trimmed output of a successful `git rev-parse --short HEAD`, otherwise `unknown` |
| DockerBuild.GhcrTagsMeaning | src/services/docker/build.rs:182-194 | exactly two tags of `ghcr.io/<user>/<image>`, the first `development` for a release and `dev` otherwise, the second the hash; they differ unless the hash is that channel name |
| Docker.IsDebianOfLines | src/services/docker/mod.rs:100-103 | a file is Debian exactly when one of its lines starts with `ID=debian` or `ID="debian"` |
| Docker.FirstStarting | src/services/docker/mod.rs:168-169 | the line found is the first starting with the key, and none exactly when no line does |
| Docker.Codename | src/services/docker/mod.rs:166-175 | `bookworm` when the file cannot be read or has no `VERSION_CODENAME=` line |
| Docker.TrimQuotes | src/services/docker/mod.rs:171 | a value wrapped in one pair of double quotes loses exactly that pair |
| Docker.CodenameLineSplit | src/services/docker/mod.rs:170 | the key and a value without `=` split back apart at `=` |
| Docker.CodenameRoundTrip | src/services/docker/mod.rs:166-175 | in a file whose first `VERSION_CODENAME=` line carries a value, quoted or not, the codename is that value |
| Docker.Ipv6EnabledAsWritten | src/services/docker/mod.rs:410-415 | as written, the test fails when the lookup or the read fails, and reports enabled only when the file exists and holds `"ipv6"` |
| Docker.Ipv6FalsePositive | src/services/docker/mod.rs:410-415 | as written, a file that turns IPv6 off but mentions `true` elsewhere is taken as enabled, although `ipv6` is not set |
| Docker.SetMember | src/services/docker/mod.rs:549-550 | `object[key] = v`: the key now holds `v` and every other key is unchanged |
| Docker.SetKey | src/services/docker/mod.rs:549-550 | indexing assignment works exactly on null or an object, a null becoming the one-member object; any other value panics |
| Docker.UpdateDaemon | src/services/docker/mod.rs:542-572 | an unparsable file is a failure and a non-object value a panic; on success `ipv6` is true, `fixed-cidr-v6` is the subnet and every other member of an object is kept |
| Docker.FreshDaemon | src/services/docker/mod.rs:433-436 | the fresh configuration sets `ipv6` and `fixed-cidr-v6` to the subnet |
| Docker.WriteFresh | src/services/docker/mod.rs:433-442 | the fresh configuration is written exactly when the write to `/tmp/daemon.json` and the `sudo mv` both succeed; otherwise the first of them that failed is the error |
| Docker.BackUpAndWrite | src/services/docker/mod.rs:452-474 | a failed `sudo cp` backup is the error and nothing is written; otherwise the fresh configuration is written, marked as backed up |
| Docker.ConfigureIpv6 | src/services/docker/mod.rs:395-477 | a failed `is_linux` is its error and off Linux nothing is done; a failed look-up or read of the daemon file is its error; corrected, the configuration is left alone exactly when `ipv6` is set to true; a failed `sudo mkdir -p /etc/docker`, then a failed second look-up, is the error; a missing file is written fresh; an existing one is updated, a panic on a non-object value aborting, and any caught failure of the update (reading, parsing, writing or moving) falls back to the backup and a fresh file; a written file sets both keys, and every command on its path succeeded |
| Docker.ConfigureIpv6Idempotent | src/services/docker/mod.rs:395-477 | running the configuration again, with the file read back, on the file it wrote finds IPv6 already enabled |
| Docker.ConfigureIpv6KeepsOptions | src/services/docker/mod.rs:443-451 | when the update's file steps succeed, an existing object is updated without a backup and keeps every member other than the two IPv6 keys |
| Docker.KeepNonBlankSound | src/services/docker/mod.rs:579-582 | every kept line is a non-blank line of the output |
| Docker.KeepNonBlankComplete | src/services/docker/mod.rs:579-582 | no non-blank line is lost |
| Docker.KeepNonBlankConcat | src/services/docker/mod.rs:579-582 | filtering distributes over concatenation, so the kept lines keep their order |
| Docker.ListRoundTrip | src/services/docker/mod.rs:619-629 | names printed one per line are read back exactly |
| Docker.BlankLineSkipped | src/services/docker/mod.rs:623-627 | a blank line among the names is skipped without disturbing the others |
| Docker.ListOf | src/services/docker/mod.rs:619-721 | a failed command is its error; otherwise exactly the non-blank output lines, in order |
| Docker.Retry | src/services/docker/mod.rs:761-784 | the command first; its sudo form only when it ran without success; success when either succeeds; the given message when both ran and failed |
| Docker.StopAllContainers | src/services/docker/mod.rs:575-600 | a failed `docker ps -q` fails; none means no stop command and success; otherwise the ids are stopped together, retried with sudo, and success returns exactly the non-blank lines of the listing |
| Docker.StartContainers | src/services/docker/mod.rs:603-616 | no ids is success; otherwise success exactly when `docker start`, or its sudo retry, succeeds |
| Docker.StopStartLinesName | src/services/docker/mod.rs:586-605 | the stop and start lines name exactly the given ids, in order |
| Docker.ComposeCommand | src/services/docker/mod.rs:741-758 | `docker compose` exactly when docker exists and `docker compose version` succeeds; otherwise `docker-compose` when it exists; else an error |
| Docker.ComposePrefersPlugin | src/services/docker/mod.rs:743-749 | when the plugin works, whether `docker-compose` exists makes no difference |
| Docker.StopContainer | src/services/docker/mod.rs:761-771 | `docker stop <name>` first; success exactly when it, or its sudo retry, succeeds |
| Docker.RemoveContainer | src/services/docker/mod.rs:774-784 | `docker rm <name>` first; success exactly when it, or its sudo retry, succeeds |
| Docker.StopAndRemove | src/services/docker/mod.rs:787-793 | the stop is issued first and the result is the removal's |
| Docker.StopOutcomeIgnored | src/services/docker/mod.rs:789 | the outcome of the stop never matters to the result |
| Docker.StopBeforeRemove | src/services/docker/mod.rs:787-793 | the remove command always follows the stop commands |
| Update.Normalize | src/update.rs:55-56 | a normalized version does not start with `v` |
| Update.NormalizeIgnoresV | src/update.rs:55-56 | any number of leading `v`s leaves the normalized version unchanged |
| Update.CheckForUpdates | src/update.rs:25-64 | nothing in development mode or a debug build, nothing for an HTTP failure; an error exactly when the request cannot be sent or the body has no tag; otherwise the raw tag exactly when it is newer |
| Update.NewerIsGreater | src/update.rs:59 | as written, newer means greater in string order after normalizing; the inequality test adds nothing |
| Update.NewerIsStrict | src/update.rs:59 | no update between versions equal after normalizing, and never in both directions |
| Update.NewerIsTotal | src/update.rs:59 | of two versions that differ after normalizing, exactly one is newer |
| Update.TenAfterNineNotOffered | src/update.rs:59 | as written, release `v0.10.0` is not offered to a user of `0.9.0` |
| Update.ParseComponents | src/update.rs:58 | one number per dot-separated component, when all are decimal |
| Update.PartsLtIrreflexive | src/update.rs:58 | no version is numerically older than itself |
| Update.PartsLtAsymmetric | src/update.rs:58 | numeric order never holds in both directions |
| Update.VersionPartsOfRender | src/update.rs:58 | a rendered version reads back as its components |
| Update.SemverNewerOfRender | src/update.rs:58-59 | corrected: on rendered versions newer is the numeric component order, strict and asymmetric, so `0.10.0` is newer than `0.9.0` |
| Update.Tail | src/update.rs:114-120 | what follows the version in an archive name has no `/` and ends with the platform's extension |
| Update.ReleaseDownload | src/update.rs:84-124 | an unknown platform, then an unknown architecture, is an error; otherwise the archive is downloaded from the release of the unmodified version |
| Update.AssetShape | src/update.rs:107-120 | the archive name starts with `hal-` and the normalized version and ends in `.zip` on Windows, `.tar.gz` elsewhere |
| Update.AssetDistinguishesVersions | src/update.rs:114-120 | different normalized versions get different archive names on the same platform |
| Update.UrlDistinguishesVersions | src/update.rs:121-124 | two versions without `/` share an address only when equal |
| Update.UrlEndsWithAsset | src/update.rs:121-124 | the archive name is the last path component of the address |
| FfiBindings.ToCamelCase | src/utils/ffi_bindings.rs:360-376 | the character loop computes the camel-case specification of its input |
| FfiBindings.CamelNoUnderscore | src/utils/ffi_bindings.rs:360-376 | a converted name holds no `_` |
| FfiBindings.CamelIsMarkedDropped | src/utils/ffi_bindings.rs:360-376 | conversion upper-cases each character right after a `_`, drops the `_`s and leaves every other character, the first included, as it was |
| FfiBindings.ExtractPlatforms | src/utils/ffi_bindings.rs:103-123 | the attribute loop builds the specified platform list of the attribute paths |
| FfiBindings.AddIfMissingKeeps | src/utils/ffi_bindings.rs:114-122 | adding a platform only when missing keeps the list free of duplicates and adds exactly that platform when wanted |
| FfiBindings.PlatformsMeaning | src/utils/ffi_bindings.rs:103-123 | a platform list has no duplicates, names only Swift, Kotlin and WASM, and names one exactly when some attribute exports to it |
| FfiBindings.MultiPlatformExportsAll | src/utils/ffi_bindings.rs:107-112 | an all-platform export attribute puts all three platforms in the list |
| FfiBindings.RecordFn | src/utils/ffi_bindings.rs:125-131 | a function is recorded, with its platforms, exactly when it has at least one platform |
| FfiBindings.RecordFnTagged | src/utils/ffi_bindings.rs:125-131 | recording keeps every recorded function with a non-empty, duplicate-free list of known platforms |
| FfiBindings.RecordFnsTagged | src/utils/ffi_bindings.rs:134-170 | recording a sequence of functions keeps the recorded list well tagged |
| FfiBindings.ExtractItemsTagged | src/utils/ffi_bindings.rs:172-232 | extracting a file's items keeps the recorded functions well tagged |
| FfiBindings.ExtractFilesTagged | src/utils/ffi_bindings.rs:19-70 | whatever the source files, every extracted function is well tagged |
| FfiBindings.StructStep | src/utils/ffi_bindings.rs:204-229 | a struct is recorded, under its name, exactly when it derives `Serialize`; the function list is untouched |
| FfiBindings.FunctionsForMeaning | src/utils/ffi_bindings.rs:239-242 | a generator lists a function exactly when that function is tagged for its platform |
| FfiBindings.GeneratorsFilter | src/utils/ffi_bindings.rs:234-358 | each generator's function section holds one line per function tagged for its platform, in order |
| FfiBindings.CommaLinesJoin | src/utils/ffi_bindings.rs:290-294 | lines with a comma after all but the last concatenate to the lines joined by `,` and a line end |
| FfiBindings.KotlinCommas | src/utils/ffi_bindings.rs:288-295 | a Kotlin data class's properties are its field declarations separated by commas, none after the last |
| FfiBindings.ConcatSnoc | src/utils/ffi_bindings.rs:234-358 | appending a piece to generated code appends its text |
| FfiBindings.GenerateBindings | src/utils/ffi_bindings.rs:19-79 | no bindings are written when no function was found; otherwise the Swift, Kotlin and TypeScript files, each from its generator |
| Portainer.FromStr | src/portainer.rs:14-20 | `ce` names the Community Edition and `be`, `business` or `business-edition` the Business Edition, in any letter case; anything else is rejected with the message naming the input |
| Portainer.FromStrIgnoresCase | src/portainer.rs:14-20 | spellings that differ only in letter case are accepted or rejected together, as the same edition |
| Portainer.FromStrOfLowered | src/portainer.rs:14-20 | lower-casing the name first changes only the error text |
| Portainer.ComposeFile | src/portainer.rs:22-27 | the Community Edition, and only it, uses `portainer.docker-compose.yml`; no edition uses the agent's file |
| Portainer.EditionsDistinct | src/portainer.rs:22-34 | the two editions have different compose files and different display names |
| Portainer.PortainerContainersExactly | src/portainer.rs:46-52 | the containers removed are exactly the listed ones named `portainer` or `portainer_agent` |
| Portainer.RemoveExisting | src/portainer.rs:46-52 | a failed listing removes nothing; otherwise each Portainer container, in listing order, is stopped and removed, failures ignored |
| Portainer.InstallSteps | src/portainer.rs:57-76 | the restart line is run exactly when the directory is made, the compose file is present and the compose command is known, and then its outcome is the result; a missing compose file is its own error |
| Portainer.MissingComposeStops | src/portainer.rs:59-66 | a missing compose file ends the install before the compose command is used or anything is run |
| Portainer.UpLineMentionsFile | src/portainer.rs:73-76 | the shell line takes the project down, failures ignored, and ends by bringing it up detached from the same compose file |
| Portainer.HostComposeFile | src/portainer.rs:174-176 | the host install copies its edition's compose file, or fails with `Invalid portainer edition: ` and the input |
| Portainer.AgentComposeFile | src/portainer.rs:214-218 | the agent install checks the edition and then copies the agent's compose file |
| Portainer.AgentIgnoresEdition | src/portainer.rs:214-234 | every valid edition gives the agent the same compose file, which is not the host's |
| Portainer.Install | src/portainer.rs:174-244 | an edition error comes first; the file is copied only after the executor is made, the install steps run only after the copy, and success needs the restart line run |
| Portainer.InvalidEditionFirst | src/portainer.rs:174-218 | an invalid edition is rejected, for host and agent alike, before anything is copied or run |
| Provision.ProvisionEdition | src/provision/mod.rs:47-53 | without a Portainer host the edition is the Community Edition whatever the text; with one it is the parsed edition, or the error `Invalid portainer edition: ` and the input |
| Provision.ProvisionHost | src/provision/mod.rs:41-67 | the edition check comes first; then a failed locality test is the error, and otherwise the locality alone picks the local or the remote route |
| Provision.EditionIgnoredWithoutHost | src/provision/mod.rs:47-53 | without a Portainer host any two edition texts give the same outcome |
| Provision.RouteByLocality | src/provision/mod.rs:56-66 | the route depends only on the locality test, not on the edition or the host flag |
| Provision.EditionsUseDifferentFiles | src/provision/mod.rs:25-30 | two different editions chosen for a Portainer host use different compose files |
| Backup.ServiceMatchesExactly | src/services/backup.rs:47-51 | the service's containers are exactly the listed ones whose name contains the service name, ignoring case |
| Backup.ServiceMatchesIgnoresCase | src/services/backup.rs:47-51 | service names that differ only in letter case select the same containers |
| Backup.ServiceContainers | src/services/backup.rs:46-55 | a failed listing is its error, no match is `No containers found for service`, and otherwise the matching containers are backed up |
| Backup.FirstContaining | src/services/backup.rs:209-214 | the first backup containing the timestamp, and none exactly when no listed backup contains it |
| Backup.SelectBackup | src/services/backup.rs:196-218 | no listed backup is an error; without a timestamp the first listed backup is restored; with one, a listed backup containing it, and an error exactly when there is none |
| Backup.SelectBackupListed | src/services/backup.rs:196-218 | the backup chosen is always one of the listed lines |
| Backup.ServiceRestoreDir | src/services/backup.rs:226-240 | a zip archive is unpacked into the service's directory and restored from there; anything else is restored in place |
| Backup.LastComponent | src/services/backup.rs:246-253 | the file name of a path holds no `/` |
| Backup.VolumeName | src/services/backup.rs:246-253 | the volume named by an archive holds no `/` and does not end in `.tar.gz` |
| Backup.VolumeOfArchive | src/services/docker/mod.rs:632-636 | the archive a volume is saved to restores that same volume |
| Backup.BindNameOf | src/services/backup.rs:86-91 | a bind mount is archived under the container's name, `_`, and the mount's last path component |
| Backup.NoCharNoContains | src/services/backup.rs:86-91 | a text without a character does not contain it |
| Backup.ArchiveLines | src/services/backup.rs:533-541 | only listed lines ending in `.tar.gz` are restored |
| Backup.ArchiveLinesSkip | src/services/backup.rs:533-541 | a listed line that is not an archive adds nothing to the restore |
| Backup.RestoreNames | src/services/backup.rs:543-563 | every restored volume name is non-empty and without `/` |
| Backup.RestoreNamesExactly | src/services/backup.rs:543-563 | a volume is restored exactly when it is the non-empty name of one of the archives |
| Backup.RestoreVolumes | src/services/backup.rs:242-257 | every volume is restored in order when all succeed; otherwise the restores stop at the first failure, which is returned, after a prefix of successful ones |
| Backup.MountSteps | src/services/backup.rs:424-465 | a bind mount's backup only runs shell commands |
| Backup.MountsSteps | src/services/backup.rs:424-465 | a container's bind mounts are backed up by shell commands only |
| Backup.ContainerSteps | src/services/backup.rs:420-465 | one container's bind-mount backup runs shell commands only |
| Backup.BindSteps | src/services/backup.rs:415-465 | the bind-mount phase issues shell commands only: it never starts or stops containers |
| Backup.SaveVolumes | src/services/backup.rs:389-409 | one save per volume, in order, each into the backup directory |
| Backup.PerformBackup | src/services/backup.rs:356-498 | the backup's steps are the specified run: stop, volumes, bind mounts, metadata, restart |
| Backup.BackupBindMounts | src/services/backup.rs:415-465 | the container loop issues the specified bind-mount steps and stops at the first error |
| Backup.BackupMounts | src/services/backup.rs:424-465 | the mount loop issues the specified steps for each mount and stops at the first error |
| Backup.BackupRestartsStopped | src/services/backup.rs:356-498 | containers are started only as the last step, only those that were stopped, and only once every earlier step succeeded; a successful backup restarts them |
| Backup.BackupFailureLeavesStopped | src/services/backup.rs:374-478 | a failure after the containers were stopped leaves them stopped |
| Backup.RestoreEffects | src/services/backup.rs:543-563 | one restore per volume name, in order, each from the backup directory |
| Backup.PerformRestore | src/services/backup.rs:500-582 | the restore's steps are the specified run: directory check, stop, archive restores, restart |
| Backup.RestoreArchives | src/services/backup.rs:533-563 | the archive loop restores, in order, each non-empty volume named by a listed archive |
| Backup.RestoreRestartsStopped | src/services/backup.rs:500-582 | containers are started only as the last step and only those stopped; a successful restore restarts them; a missing backup directory is an error before anything happens |
| DevDevices.JsonDevice | src/commands/dev.rs:285-300 | an entry is listed exactly when it has a string `udid` and `name`; it is booted exactly when its `state` is `Booted`, so a missing state is not booted; it carries its runtime |
| DevDevices.JsonRuntimesFrom | src/commands/dev.rs:281-305 | every device read from JSON carries one of the runtimes it was listed under |
| DevDevices.JsonDeviceListRuntime | src/commands/dev.rs:283-303 | every device of one runtime's list carries that runtime |
| DevDevices.DeviceLineAsWritten | src/commands/dev.rs:341-364 | as written, a device is read only with an id of the expected shape, under the runtime in force, booted exactly when the line mentions `Booted` |
| DevDevices.DeviceLine | src/commands/dev.rs:341-364 | corrected: the same guarantees, with the id taken from the last id-shaped group |
| DevDevices.LastIdGroup | src/commands/dev.rs:349-355 | the group found opens at a `(` and holds an id with 36 characters and four dashes |
| DevDevices.BootedText | src/commands/dev.rs:344-353 | a line whose state is `Booted` mentions `Booted` |
| DevDevices.DeviceLineAsWrittenRead | src/commands/dev.rs:341-364 | as written, an indented line whose name has no `(` reads back as its id, name, runtime and state |
| DevDevices.DeviceLineAsWrittenDropsGroupInName | src/commands/dev.rs:346-355 | as written, a name that holds a group such as `(M4)` makes that group the id, and the device is dropped |
| DevDevices.GroupedNameDropped | src/commands/dev.rs:343-355 | as written, `iPad Pro 13-inch (M4)` with a well-formed id and the Shutdown state is not listed |
| DevDevices.DeviceLineRead | src/commands/dev.rs:341-364 | corrected: an indented device line reads back whatever groups its name holds |
| DevDevices.GroupedNameListed | src/commands/dev.rs:341-364 | corrected: `iPad Pro 13-inch (M4)` is listed under its full name |
| DevDevices.ParseListing | src/commands/dev.rs:334-366 | corrected: the line loop computes the specified scan of the listing, reading device lines with the corrected `DeviceLine` |
| DevDevices.StepShape | src/commands/dev.rs:334-366 | a header line sets the runtime and lists nothing; any other line keeps the runtime and lists at most one device, with a checked id and the runtime in force |
| DevDevices.ScanKeepsRuntime | src/commands/dev.rs:334-366 | between two headers every device listed gets the runtime in force, and no device listed earlier changes |
| DevDevices.ScanIdsShaped | src/commands/dev.rs:355 | every listed device passed the id check |
| DevDevices.HeaderRead | src/commands/dev.rs:335-340 | a header `-- iOS … --` sets the runtime to the text between the dashes |
| DevDevices.DeviceLeTransitive | src/commands/dev.rs:313-317 | the device order is transitive |
| DevDevices.DeviceLeTotal | src/commands/dev.rs:313-317 | any two devices are ordered one way or the other |
| DevDevices.SortedMeaning | src/commands/dev.rs:313-317 | in a sorted list the booted devices come first and devices of the same state are in name order |
| DevDevices.SortDevices | src/commands/dev.rs:370-374 | the array ends sorted and holds the same devices |
| DevDevices.Insert | src/commands/dev.rs:370-374 | one insertion step extends the sorted prefix by one and keeps the same devices |
| DevDevices.ListLegacy | src/commands/dev.rs:322-377 | corrected: a failed call is `Failed to list devices`; otherwise the devices of the corrected scan of the listing, sorted |
| DevDevices.ListDevices | src/commands/dev.rs:261-320 | corrected (text listing as in `ListLegacy`): a call that does not start fails; a failed exit falls back to the text listing; unparsable JSON is an error; otherwise the JSON devices; every list returned is sorted |
| DevDevices.SortedCopy | src/commands/dev.rs:313-317 | the devices in sorted order, none added or lost |
| DevDevices.SelectDevice | src/commands/dev.rs:152-191 | no device is an error; an input that is not a number is an error; a number in 1 to the count picks that device; any other number is refused with the range |
| DevDevices.SelectShownNumber | src/commands/dev.rs:158-191 | typing the number shown beside a device, after any whitespace, picks that device |
| DevDevices.SelectOutOfRange | src/commands/dev.rs:182-187 | 0 or a number past the count is refused with the message naming the range |

## Left out

- Process, SSH and HTTP execution are not modelled: spawning commands, `ssh`/`scp`, interactive terminals, `sudo` prompts and reqwest calls. Their outcomes are parameters, and the model states the argv and shell lines they are given.
- The TCP transport is not modelled: `TcpListener`, `TcpStream`, `connect_timeout` and the JSON stream reader/writer. Reachability is an oracle, and one request/response exchange is a function.
- The agent server's accept loop (`AgentServer::start`), its background sync thread and the async runtimes are left out, because they are concurrency and I/O.
- `AgentClient::sync_database` is left out: it sends a request variant that the server's request type does not have, so there is no response to model.
- Box and pointer ownership in the C interface is not modelled: a pointer is an `Option`, null is `None`, and freeing is a no-op on values.
- Clock, randomness and UUIDs are parameters: `Utc::now`, `SystemTime`, `Uuid::new_v4` and SQLite `random()`/`randomblob`.
- rusqlite is not executed: a table is its column layout, its column-level NOT NULL and UNIQUE constraints and its rows in rowid order; `PRAGMA` and `sqlite_master` answers are inputs, and statements are returned as text with their parameters.
- Table-level constraints (`UNIQUE(a, b)`, `CHECK`, foreign keys) and column `DEFAULT`s are not modelled; the tables modelled here declare none.
- InsertViolation: when a row breaks several constraints, the one named follows a fixed order (NOT NULL columns in layout order, then the key, then UNIQUE columns in layout order), which need not be the column SQLite reports first; `UpdateViolation` and `ReplaceEffect` name theirs in the same way.
- Database errors on the store paths whose results the source ignores are not modelled.
- File-system access is input or output: `.env`, `/etc/fstab`, `daemon.json`, compose files, directory listings, and the generated binding and migration files.
  - Missing files and read/write errors are modelled only where the code branches on them.
- The dotenv reader is simplified: a line is split at its first `=`, and quoting and escape rules are left out.
- Case mapping and whitespace are ASCII only: `to_lowercase`, `to_uppercase`, `is_whitespace` and `is_alphanumeric` on non-ASCII characters differ.
- Lengths are counted in characters rather than UTF-8 bytes.
  - This matters for the `id.len() == 36` check in src/commands/dev.rs and the ten-character tail test of `normalize_hostname`; the two agree on ASCII text.
- `HashMap` iteration order is unspecified in the source. The model states those results as order-free facts (membership, counts) or fixes one order.
- `serde_json` object order is taken as member order.
- The interactive prompts are left out, because they read the terminal: `ensure_host_in_config`, `set_backup_location`, `restore_database`, `prompt_for_update`, `backup_interactive`, `restore_interactive` and the device-number prompt (its parsing is modelled as `DevDevices.SelectDevice`).
- `handle_config_command`'s printing subcommands are left out: only the hostname/command split and the field updates are modelled.
- `handle_migrate` is left out: it dispatches to the migration runner, which is not part of this model, and prints a status table.
- `collect_rust_files` and the `syn` parsing of Rust sources are left out. The parsed items are the input of `FfiBindings`, and a file that fails to parse is `None`.
- Binding generation's output directories, file writes and `cargo:warning` lines are left out.
- `update.rs`: the download, archive extraction and binary replacement are left out (I/O and archive formats), and so is the scan for the Windows executable in the zip.
  - A client-build failure and a send failure are both the model's `SendFailed`.
- `docker/mod.rs`: `ensure_docker_running`, the Docker installers and their GPG keys, `configure_permissions` and the restart and verification after writing `daemon.json` (lines 482-536) are left out, because they only run commands.
- `check_docker_auth` is left out: it only prints and always succeeds.
- `backup_volume`, `restore_volume` and `is_container_running` are left out as commands. Backup and restore model them as effects in their step logs.
- `smb.rs`: `cleanup_old_mounts`, `install_smb_client` and the `umount`/`rmdir` steps of the uninstall are left out (command execution). The fstab edits they make are modelled.
- `npm.rs`: the compose-file existence check, YAML syntax and read errors, login, token handling, and listing existing proxy hosts are left out.
  - The existing domains are given as a list, and HTTP results as outcomes.
- `backup.rs`: these parts are left out:
  - `list_backups` and `list_backup_directories`, which print;
  - `backup_to_env` and `restore_from_env`, which delegate;
  - `backup_service`'s per-container volume, bind-mount and zip commands, which only run commands (it has no `sudo` retry);
  - the `ServiceContext` set-up.
- Shell-script templates in src/backup.rs and src/provision.rs, and the local/remote provisioning steps behind `provision_host`'s dispatch, are left out.
- The duplicated older modules (src/config.rs, src/docker.rs, src/tailscale.rs, src/ssh.rs, src/vpn*, src/commands/list.rs, src/db/core/builder.rs) and the other generated tables are not modelled separately. They repeat logic that is modelled once here.
- `Portainer.Install` models `install_host` and `install_agent` together: their steps differ only in messages.
- `Portainer.RemoveExisting` takes the container listing and each stop-and-remove outcome as inputs. It uses `Docker.StopAndRemove`, whose failure is ignored as in the source.
- `DevDevices.SortDevices` proves sorted order and a permutation, but not that `sort_by` is stable: the relative order of two devices with the same state and name is not stated.
- `DevDevices.SortedCopy` proves sorted order and a permutation, but not that `sort_by` is stable: the relative order of two devices with the same state and name is not stated.
- `DevDevices.ListLegacy` proves sorted order and a permutation, but not that `sort_by` is stable: the relative order of two devices with the same state and name is not stated.
- `DevDevices.ListDevices` proves sorted order and a permutation, but not that `sort_by` is stable: the relative order of two devices with the same state and name is not stated.
- ParseListing: reads device lines with the corrected `DevDevices.DeviceLine` (the id from the last id-shaped group), not `DevDevices.DeviceLineAsWritten`, so a name holding a group such as `(M4)` is listed where the source drops the line (see "## Findings").
- ListLegacy: inherits the corrected line reading from `DevDevices.ParseListing`.
- ListDevices: inherits the corrected line reading through `DevDevices.ListLegacy` on the text-listing path.
- SelectOne: decodes rows with the corrected field order (`HostInfoTable.OfRecord` over `HOST_INFO`), not the positional as-written order of src/db/generated/host_info.rs:29-34 (see "## Findings").
- SelectMany: decodes rows with the same corrected field order as `HostInfoTable.SelectOne`.
- InstallPackagesPlan: builds the Brew invocation with the corrected arguments (`brew install …`), not the `brew brew install …` of src/utils/exec.rs:266-270 (see "## Findings").
- CreateTable: creates the table from the corrected `DbTable.CreateTableSql` (timestamps after the data columns), not the column order of src/db/core/table.rs:340-352 (see "## Findings").
- ConfigureIpv6: decides whether IPv6 is enabled with the corrected `ipv6` key test, not the text search of src/services/docker/mod.rs:410-415 (see "## Findings").
- ConfigureIpv6: the `serde_json::to_string_pretty` and validation steps of src/services/docker/mod.rs:437, 468 and 553-557 cannot fail on the objects built, and are not outcomes; the read, write, read-back and `sudo mv` of `update_daemon_json_rust` are two outcomes, the read before parsing and the rest after it.
- SetupShare: models the Unix branch, where the ids come from `get_uid` and `get_gid`; the non-Unix fallback through `id -u` and `id -g` (src/smb.rs:229-241) is not modelled.
- GithubUser: reads the owner with the corrected `DockerBuild.RemoteOwner`; as written (`DockerBuild.GithubUserAsWritten`) the remote step gives `unknown` or the repository name, never the owner (see "## Findings").
- Migrate.EscapeChar: writes `\u{…}` only for control characters (C0 without a short escape, DEL and C1); other characters Rust's `{:?}` escapes (non-printable Unicode such as U+00AD, unassigned code points, and grapheme extenders) are copied as they are. The SQL text the literal denotes is the same either way.
- `DevDevices.ListDevices` ignores the physical-device listing, as the source does: it runs that command and never reads the result.
- `Docker.ComposeCommand` states the error `No docker compose command found` only as a consequence of both lookups failing. A failed lookup can carry any message.

## Findings

| source | as written | input that shows it | evidently intended | confidence | as-written member | corrected member |
|---|---|---|---|---|---|---|
| src/utils/exec.rs:266-270 | the Brew branch of `_install_packages` runs `brew` with the arguments `brew install …` | package manager Brew, packages `["git"]`: the invocation is `brew brew install git` | `brew install git`, as `install_package` does | not executed | Exec.BrewPackagesRepeatProgram | Exec.InstallPackagesPlan, Exec.SinglePackageListAgrees |
| src/db/core/table.rs:340-352 | `create_table_sql` declares `id`, `created_at`, `updated_at`, then the data columns, while `from_row` reads the data fields from positions 1..N | a table with one text field: `SELECT *` puts `created_at` where the field is read, so no record reads back | the timestamps after the data columns, the order `all_columns` gives | not executed | DbTable.CreateTableAsWrittenMisreads, DbTable.CreateTableAsWrittenExample | DbTable.CreateTableRoundTrip, DbTable.CreateTable |
| src/db/generated/host_info.rs:29-34 | the field list puts `hostname_field` after `backup_path`, while the migrated table has it before `tailscale` | a host with only a Tailscale name, stored and read back by position: its Tailscale name is lost | the field list in the table's column order | not executed | HostInfoTable.AsWrittenRoundTripFails, HostInfoTable.AsWrittenExample, HostInfoTable.AsWrittenReadRotates | HostInfoTable.ReadRoundTrip |
| src/services/docker/build.rs:136-141 | `get_github_user` takes piece 1 of the `/`-split SSH remote and piece 3 of the HTTPS remote, and strips `.git` from it without trimming git's line break | git prints `git@github.com:owner/repo.git` with a line break, which gives `unknown` (without the line break it gives `repo`); `https://github.com/owner/repo.git` gives `unknown` | the owner in both forms | not executed | DockerBuild.GithubUserAsWritten, DockerBuild.SshRemoteLineEndAsWritten, DockerBuild.SshRemoteAsWritten, DockerBuild.HttpsRemoteAsWritten | DockerBuild.GithubUser, DockerBuild.SshRemoteOwner, DockerBuild.HttpsRemoteOwner |
| src/services/docker/mod.rs:410-415 | IPv6 counts as enabled when `daemon.json` contains the text `"ipv6"` and the text `true` anywhere | `{"ipv6": false, "debug": true}` is taken as enabled, so IPv6 is never configured | enabled exactly when the `ipv6` key is set to `true` | not executed | Docker.Ipv6FalsePositive, Docker.Ipv6EnabledAsWritten | Docker.ConfigureIpv6, Docker.ConfigureIpv6Idempotent |
| src/update.rs:59 | versions are compared as strings | current `0.9.0`, latest tag `v0.10.0`: no update is offered | semantic-version order of the components | not executed | Update.TenAfterNineNotOffered | Update.SemverNewerOfRender |
| src/commands/dev.rs:343-355 | the legacy parser cuts the name at the first `(` and reads the id from the first group | `    iPad Pro 13-inch (M4) (<uuid>) (Shutdown)`: the id read is `M4`, and the device is dropped | the id from the last id-shaped group, the name from the text before it | not executed | DevDevices.GroupedNameDropped, DevDevices.DeviceLineAsWrittenDropsGroupInName | DevDevices.DeviceLineRead, DevDevices.GroupedNameListed |
