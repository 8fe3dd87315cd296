# Catalyst core: inventory index and executor session

A Dafny model of the two parts of Catalyst, a small remote-automation tool, that carry logic:

- **Inventory** (`inventory.dfy`, module `Inventory`). This is the inventory of hosts and groups:
  - a map from host name to a `Host` record;
  - a group index from group name to the list of its member host names;
  - `Host.from_dict` with its defaults;
  - `add_host`, `get_host` and `get_group_hosts`;
  - the loader `from_yaml`, which registers every `hosts:` entry and then merges the `groups:` declarations into both maps.

  The class `Inventory.Inventory` holds the two maps as fields. Its methods are proved against functions on the value `Index`:
  - `AddHostSpec` / `Register` for `add_host`;
  - `MergeAll` / `MergeNames` / `MergeMember` for the merge loops;
  - `LoadHosts` for the `hosts:` loop and `Load` for the whole loader.

  `AddHostSpec` and `Register` get their meaning from `RegisterAt` and `AddHostEffect`, the merge functions from `MergeNamesHost`, `MergeNamesGroup`, `MergeAllHost` and `MergeAllGroup`, and `LoadHosts` and `Load` from the `Load…` lemmas.

  The lemmas beside them state the properties:
  - duplicate-free group lists;
  - idempotence;
  - the frame of `add_host`;
  - every listed name being a known host;
  - the two-way agreement of the two maps after a load.
- **Executor** (`executor.dfy`, module `Executor`). This is the SSH executor. It is a two-state machine: it holds a client or none. It connects lazily on `execute`, `upload_file` and `download_file`, and `close` is idempotent. Around that are:
  - the connect keyword arguments;
  - the command string (environment prefix, then `sudo `, then the command);
  - the shaping of a command's result.

  The transport is an oracle `Network`: it decides which calls succeed and what a command prints. The executor records every call it makes in the ghost trace `calls`. Pure step functions (`ConnectStep`, `EnsureSession`, `ExecuteStep`, `UploadStep`, `DownloadStep`, `CloseStep`) give each operation's new client, calls and outcome. The class methods are proved to take exactly those steps. A transfer's calls are its plan (`UploadPlan`, `DownloadPlan`); `Attempt` makes the plan's calls until one raises (`AttemptPrefix`). The meaning of `EnsureSession`, `ExecuteStep`, `UploadStep` and `DownloadStep` is stated by the `…Lazily` and `…Outcome` lemmas.
- **Text** (`text.dfy`) has Python's `str.strip` over Python's whitespace set, and `str.join`.
- **Wrappers** (`wrappers.dfy`) has `Option` and `Result`.

Errors are values. `Inventory.Error` covers `InventoryError` (host not found, group not found, load failed) and the raw `KeyError` of a missing key. `Executor.ExecutionError` has one constructor per message prefix the executor raises with.

The executor assigns its client before it attempts the connect. So a failed connect still leaves an executor that "has a client". Until `close()` clears it, no later `execute`, `upload_file` or `download_file` connects (`FailedConnectIsNotRetried`), and each of them raises on the dead client (`Link`). `close()` on the dead client succeeds and drops it, after which the next operation connects again (`CloseThenReconnects`); an explicit `connect()` also connects again. `connect` is therefore not a move from disconnected to connected when it fails: the executor is left holding a dead client.

The connect arguments carry both `password` and `key_filename` when both are truthy; neither takes precedence over the other (`ConnectArgs`).

## Model

| member | source | states |
|---|---|---|
| Inventory.Host.FromDict | src/catalyst/core/inventory.py:32-43 | succeeds exactly when `hostname` and `username` are present; a missing `hostname` gives KeyError("hostname") first, then a missing `username` gives KeyError("username"); port defaults to 22, groups to [], variables to {}, and password and key_file to None |
| Inventory.RegisterAt | src/catalyst/core/inventory.py:56-60 | after the group loop of `add_host`: a group exists exactly when it existed or the host names it; every group named gets `name` appended only if absent, however often it is named; every other group is unchanged |
| Inventory.RegisterIdempotent | src/catalyst/core/inventory.py:56-60 | running the group loop twice for the same name and groups gives the same group index as running it once |
| Inventory.AddHostIdempotent | src/catalyst/core/inventory.py:53-60 | `add_host` twice with the same name and host leaves the same state as once |
| Inventory.AddHostEffect | src/catalyst/core/inventory.py:53-60 | `hosts[name] == host`; the host keys gain `name`; other hosts are unchanged; each of the host's groups exists and lists `name`; groups not named are unchanged; no group is created beyond those named; every old list is kept or extended by `name` alone, so old memberships are never removed |
| Inventory.AddHostKeepsGroupsDistinct | src/catalyst/core/inventory.py:56-60 | `add_host` never creates a duplicate in any group list |
| Inventory.AddHostKeepsMembersKnown | src/catalyst/core/inventory.py:55-60 | every name listed under a group stays a key of `hosts`, because the host is stored before it is listed |
| Inventory.AddHostKeepsNoEmptyGroups | src/catalyst/core/inventory.py:56-60 | `add_host` creates a group entry only to put `name` in it, so no entry is left empty |
| Inventory.AddHostKeepsConsistent | src/catalyst/core/inventory.py:53-60 | adding a host under a new name keeps both directions of host/group agreement |
| Inventory.HostsOf | src/catalyst/core/inventory.py:73 | the list comprehension: one Host per name, in order and of the same length, when all names are known; otherwise KeyError for the first name that is missing |
| Inventory.MergeMember | src/catalyst/core/inventory.py:95-100 | one iteration of the merge: the host keys are unchanged, and a group index entry is created only when a known host joins a group it did not name |
| Inventory.MergeNames | src/catalyst/core/inventory.py:94-100 | the inner merge loop never adds or removes a host |
| Inventory.MergeAll | src/catalyst/core/inventory.py:92-100 | the outer merge loop never adds or removes a host |
| Inventory.MergeNamesHost | src/catalyst/core/inventory.py:94-97 | the inner loop changes nothing of a known host but its groups, and appends the merged group to them once, at the end, exactly when the host is listed and did not name it |
| Inventory.MergeNamesGroup | src/catalyst/core/inventory.py:94-100 | the inner loop appends to the merged group's entry exactly the known listed hosts that did not name it, each at its first listing, in list order; every other group entry is unchanged, and no other entry is created or removed |
| Inventory.MergeAllHost | src/catalyst/core/inventory.py:92-97 | the whole merge changes nothing of a known host but its groups, which keep their old order and gain at the end the declared groups that list the host, in document order, each once and only if not already named |
| Inventory.MergeAllGroup | src/catalyst/core/inventory.py:92-100 | the whole merge only extends group entries: every entry before the merge is a prefix of the entry after it, and no entry is removed |
| Inventory.MergeMemberKeepsConsistent | src/catalyst/core/inventory.py:95-100 | one merge step keeps both directions of agreement and duplicate-free group lists |
| Inventory.MergeNamesKeepsConsistent | src/catalyst/core/inventory.py:94-100 | the inner loop keeps agreement and duplicate-free group lists (induction on the names) |
| Inventory.MergeAllKeepsConsistent | src/catalyst/core/inventory.py:92-100 | the whole merge keeps agreement and duplicate-free group lists (induction on the declarations) |
| Inventory.MergeNamesKeepsNoEmptyGroups | src/catalyst/core/inventory.py:94-100 | the inner loop creates an entry only together with its first member, so none is empty |
| Inventory.MergeAllKeepsNoEmptyGroups | src/catalyst/core/inventory.py:92-100 | the whole merge leaves no group entry empty |
| Inventory.MergeNamesHostGroups | src/catalyst/core/inventory.py:94-97 | a known host has group `g'` after the inner loop exactly when it had it, or `g'` is the group being merged and the host is listed; unknown names are skipped |
| Inventory.MergeAllHostGroups | src/catalyst/core/inventory.py:92-97 | a known host has group `g'` after the merge exactly when it had it or some `groups:` entry named `g'` lists it |
| Inventory.MergeNamesCreatesEntry | src/catalyst/core/inventory.py:94-100 | the merged group has an index entry exactly when it had one or some listed host joins it; a declaration with no newly added member creates no entry |
| Inventory.LoadHostsFails | src/catalyst/core/inventory.py:86-89 | the hosts loop fails exactly when some entry lacks `hostname` or `username`, and then with LoadFailed wrapping the KeyError |
| Inventory.LoadHostsFailureSticks | src/catalyst/core/inventory.py:87-89 | once an entry has failed, the later entries are not processed: the result is that failure |
| Inventory.LoadFails | src/catalyst/core/inventory.py:85-109 | the load fails exactly when a host entry lacks a required field, and every failure is an InventoryError |
| Inventory.LoadHostsKeys | src/catalyst/core/inventory.py:86-89 | after the hosts loop, the host keys are exactly the entry names |
| Inventory.LoadHostsHosts | src/catalyst/core/inventory.py:86-89 | with distinct names, each name maps to what `Host.from_dict` makes of its entry |
| Inventory.LoadHostsConsistent | src/catalyst/core/inventory.py:86-89 | with distinct names, the hosts loop leaves both maps in agreement with no duplicates |
| Inventory.LoadHostsNoEmptyGroups | src/catalyst/core/inventory.py:86-89 | the hosts loop leaves no group entry empty |
| Inventory.LoadConsistent | src/catalyst/core/inventory.py:85-100 | after a load with distinct host names, `g in hosts[n].groups` iff `n in groups[g]`; both hold exactly when the document puts `n` in `g`, in the host's `groups` list or in the group's `hosts` list; a group has an entry exactly when the document puts some host in it, so `get_group_hosts` raises for any other group; group lists have no duplicates; every listed name is a known host |
| Inventory.LoadHostGroups | src/catalyst/core/inventory.py:85-100 | after such a load, host `n` has group `g` exactly when the document puts `n` in `g` |
| Inventory.LoadHost | src/catalyst/core/inventory.py:85-100 | after a load with distinct host names, each host is what `Host.from_dict` makes of its entry, with the groups that `groups:` entries declare for it appended after its own, in document order |
| Inventory.Inventory.constructor | src/catalyst/core/inventory.py:48-50 | a new inventory has no hosts and no groups |
| Inventory.Inventory.AddHost | src/catalyst/core/inventory.py:53-61 | the new state is `AddHostSpec` of the old one; the host is then found under `name`; each of its groups lists `name` |
| Inventory.Inventory.GetHost | src/catalyst/core/inventory.py:63-67 | fails with HostNotFound, an InventoryError, exactly when `name` is not a key; otherwise returns the stored Host |
| Inventory.Inventory.GetGroupHosts | src/catalyst/core/inventory.py:69-73 | an unknown group gives GroupNotFound; a result has one Host per listed name, in list order; when every listed name is known (the invariant) it succeeds exactly when the group exists |
| Inventory.Inventory.MergeGroup | src/catalyst/core/inventory.py:94-100 | the inner loop over one group's listed hosts leaves the state `MergeNames` computes from the old state |
| Inventory.Inventory.MergeGroups | src/catalyst/core/inventory.py:91-100 | the nested loops leave the state `MergeAll` computes from the old state |
| Inventory.Inventory.FromYaml | src/catalyst/core/inventory.py:75-109 | succeeds exactly when `Load` does, with a fresh inventory whose maps are `Load`'s; a failure is `Load`'s error |
| Text.ScanLeft | src/catalyst/core/executor.py:96-97 | the forward scan of `strip` stops at the first non-space at or after its start, or at the end, having passed only whitespace |
| Text.ScanRight | src/catalyst/core/executor.py:96-97 | the backward scan stops just after the last non-space above its lower bound, or at that bound, having passed only whitespace |
| Text.Strip | src/catalyst/core/executor.py:96-97 | the result is trimmed: empty, or starting and ending with a non-space |
| Text.StripSlice | src/catalyst/core/executor.py:96-97 | the result is a slice of the input with only whitespace before and after it |
| Text.StripPadded | src/catalyst/core/executor.py:96-97 | stripping a trimmed text padded with whitespace gives back that text |
| Text.StripIdempotent | src/catalyst/core/executor.py:96-97 | stripping twice is stripping once |
| Text.Join | src/catalyst/core/executor.py:87 | no parts join to the empty string and one part to itself; two or more are at least as long as the first part and the separator |
| Text.JoinFirst | src/catalyst/core/executor.py:87 | two or more parts begin with the first part followed by the separator |
| Text.JoinSnoc | src/catalyst/core/executor.py:87 | a further part comes last, after one separator |
| Executor.ConnectArgs | src/catalyst/core/executor.py:41-51 | the keys are hostname, username, port and timeout, plus `password` exactly when it is truthy and `key_filename` exactly when it is truthy (both may be present); each value is the setting |
| Executor.EnvString | src/catalyst/core/executor.py:87-88 | the environment string is empty exactly when there are no entries; a single entry gives `k=v` |
| Executor.EnvStringSnoc | src/catalyst/core/executor.py:87 | a further variable comes last, after a single space |
| Executor.FinalCommand | src/catalyst/core/executor.py:80-89 | the command run is the environment prefix (the assignments and one space, or nothing for None or no entries), then `sudo ` when asked for, then the command; it ends with the command; with neither it is the command itself |
| Executor.Shape | src/catalyst/core/executor.py:95-111 | the status is passed through unchanged; stdout and stderr are whitespace-stripped |
| Executor.ShapeIdempotent | src/catalyst/core/executor.py:96-97 | shaping an already shaped result changes nothing |
| Executor.AttemptPrefix | src/catalyst/core/executor.py:134-148 | the calls of a transfer made before one raises are a prefix of its plan: all of it when every call succeeds, otherwise up to and including the first failing call |
| Executor.UploadPlan | src/catalyst/core/executor.py:135-143 | open, put, then chmod exactly when a mode is given (mode 0 included), then close; four calls with a mode and three without |
| Executor.Link | src/catalyst/core/executor.py:33-58 | an established session passes calls to the transport; on a client whose connect failed every call raises |
| Executor.ConnectStep | src/catalyst/core/executor.py:33-58 | the executor holds a client after `connect` whether or not the call succeeds; one connect call with `ConnectArgs`; success exactly when the transport accepts it, and then the client holds a live session; otherwise ConnectionFailed and a dead client |
| Executor.CloseStep | src/catalyst/core/executor.py:178-183 | always ends with no client and no error; with a client it makes exactly one call, the close, and with none it makes no call |
| Executor.EnsureSessionLazily | src/catalyst/core/executor.py:77-78 | `if not self.client: self.connect()` makes one connect call when there is no client and none otherwise, and leaves a client |
| Executor.ExecuteLazily | src/catalyst/core/executor.py:77-78 | `execute` makes one connect call, as its first call, exactly when there is no client; a client it finds is reused |
| Executor.UploadLazily | src/catalyst/core/executor.py:131-132 | the same for `upload_file` |
| Executor.DownloadLazily | src/catalyst/core/executor.py:162-163 | the same for `download_file` |
| Executor.ExecuteOutcome | src/catalyst/core/executor.py:77-115 | `execute` returns exactly when a session is open (a held client whose connect succeeded, or its own successful connect) and the command runs; the result is the shaped output with its status whatever the status; a failed connect gives ConnectionFailed without running the command; any other failure, a run on a dead client included, gives ExecutionFailed |
| Executor.UploadOutcome | src/catalyst/core/executor.py:117-148 | `upload_file` succeeds exactly when a session is open and every call of its plan succeeds; ConnectionFailed or UploadFailed otherwise; no chmod without a mode; a given mode, 0 included, is applied once the put has succeeded |
| Executor.DownloadOutcome | src/catalyst/core/executor.py:150-176 | `download_file` succeeds exactly when a session is open and open, get and close succeed; ConnectionFailed or DownloadFailed otherwise |
| Executor.FailedConnectIsNotRetried | src/catalyst/core/executor.py:33-78 | after a failed connect the executor holds a client, so the next `execute` makes no connect call, whatever the transport would now do, and fails with ExecutionFailed |
| Executor.ConnectThenExecute | src/catalyst/core/executor.py:33-115 | after a successful explicit `connect`, `execute` makes no connect call and succeeds exactly when the command runs |
| Executor.CloseThenReconnects | src/catalyst/core/executor.py:77-78 | after `close`, even of a dead client, the next `execute` makes exactly one connect call, as its first call |
| Executor.CloseIdempotent | src/catalyst/core/executor.py:178-183 | a second `close` makes no call and leaves the executor disconnected |
| Executor.EchoExample | src/catalyst/core/executor.py:92-111 | with a transport that accepts every call and prints `ok\n` with status 0, `execute("echo hi")` returns stdout "ok", stderr "" and status 0 |
| Executor.Executor.constructor | src/catalyst/core/executor.py:15-31 | the settings are stored with defaults port 22 and timeout 30; a new executor holds no client and has made no call |
| Executor.Executor.Connect | src/catalyst/core/executor.py:33-58 | builds the keyword arguments step by step, makes the connect call and ends in `ConnectStep`'s client, trace and outcome |
| Executor.Executor.EnsureConnected | src/catalyst/core/executor.py:77-78 | connects exactly when no client is held, ending in `EnsureSession`'s client, trace and outcome |
| Executor.Executor.Execute | src/catalyst/core/executor.py:60-115 | ends in `ExecuteStep`'s client, trace and outcome |
| Executor.Executor.Run | src/catalyst/core/executor.py:91-114 | one command call is appended to the trace; it returns the shaped output exactly when the session accepts the call, otherwise ExecutionFailed |
| Executor.Executor.Perform | src/catalyst/core/executor.py:135-143 | one SFTP call is appended to the trace and succeeds exactly when the transport accepts it; on failure the trace is complete for the transfer |
| Executor.Executor.UploadFile | src/catalyst/core/executor.py:117-148 | ends in `UploadStep`'s client, trace and outcome |
| Executor.Executor.DownloadFile | src/catalyst/core/executor.py:150-176 | ends in `DownloadStep`'s client, trace and outcome |
| Executor.Executor.Close | src/catalyst/core/executor.py:178-183 | ends in `CloseStep`'s client and trace |

## Left out

- The SSH and SFTP transport is not modelled; the oracle `Network` stands for it. The oracle covers `SSHClient.connect`, `exec_command`, `recv_exit_status`, and `open_sftp`/`put`/`chmod`/`get`/`close`. Each call either succeeds or raises, and a command's output and status are whatever the oracle returns. The oracle does not depend on earlier calls; the one effect of history that is modelled is that a client whose connect failed raises on every call. The oracle always answers: a call that blocks, such as a remote command that never exits and so holds `recv_exit_status` forever, is not modelled.
- `set_missing_host_key_policy` and the creation of the `SSHClient` are taken never to fail, and `SSHClient.close` likewise. The model has no call for the policy.
- `Executor.ExecuteOutcome`: the exit-status read and the reading and `.decode()` of the two streams are folded into the one `ExecCommand` call. A decoding error is not modelled, and the streams are strings.
- `Text.Strip` follows CPython's two scans and Python's whitespace set for `str` characters. Surrogate pairs and other Unicode detail are not modelled.
- Reading the file and parsing YAML (`open`, `yaml.safe_load`) are not modelled; the model starts from a parsed `Document`. Both top-level mappings and each entry's fields are typed, and an absent key is `None`. These cases are not modelled:
  - an explicit null for a host field (`port: null` gives a port of None, not the default);
  - a host entry with nothing under it (`web1:` alone): `data['hostname']` raises TypeError, which the source reports as an InventoryError, while the model cannot write a null `HostEntry`;
  - `hosts: null` or `groups: null` at the top level, a group with nothing under it (`webservers:` alone), and `hosts: null` under a group: the source raises on each (through `.items()`, `.get` or iteration) and reports an InventoryError, while the model cannot write them;
  - YAML timestamps and other tagged scalars inside `variables` (strings, integers, floats as reals, booleans, null, sequences and mappings are modelled);
  - values of the wrong type;
  - a document that is not a mapping;
  - anchors that make two hosts share one `groups` list, through which an append in the merge would reach both hosts.
- `Inventory.LoadConsistent` requires distinct host names. A YAML mapping cannot have duplicate keys once parsed; a document given as a sequence of pairs could.
- The group `variables` blocks are carried in `GroupEntry` and read by nothing, as in the source.
- The logger (`logger.py`) and every logging call are not part of this model. They have no effect on state.
- The demonstration scripts `examples/basic_usage.py` and `examples/dry_run.py` are not part of this model, and neither is the package's `__init__.py`.
- The executor's `logger` attribute is not modelled.
