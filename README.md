# napalm-asa driver bookkeeping, modelled in Dafny

The NAPALM driver for Cisco ASA firewalls (`napalm_asa/asa.py`) wraps an
SSH session. What it decides for itself is small and sequential, and this project
models that part:

- **Command fallback** (`_send_command`). A command is either one string or a list of
  alternative spellings. With a list, the driver sends each spelling in turn. It stops at
  the first reply that does not contain `"% Invalid"`. If every reply contains it, the
  driver keeps the last reply. Post-processing is the identity.
- **Configuration getter** (`get_config`). It returns a record with exactly the keys
  `startup`, `running` and `candidate`. The first two are filled from
  `show startup-config` and `show running-config`, depending on `retrieve`. The candidate
  is always empty.
- **Session and candidate state** (`AsaDriver`). The fields are the connection,
  `candidate_config`, `dest_file_system` and `context`. `open` connects, enters enable
  mode, moves to the system context, detects the file system if none is known yet, and
  then moves into the configured context. `load_replace_candidate` prefers a file name
  to configuration text, following Python truthiness. `discard_config` forgets the
  candidate. `compare_config` reads the running configuration and diffs it with the
  candidate. `commit_config` always raises `NotImplementedError`.

The SSH library (netmiko) is modelled as `Netmiko.Connection`. A connection records
every command sent on it, oldest first. Its replies come from an `Appliance` oracle,
which maps the command history and the next command to the output text. So a reply may
depend on earlier context switches, and everything the driver does is deterministic
given the oracle. The oracle also says what the library's file-system probe returns:
`None` stands for an installed netmiko that lacks `_autodetect_fs`.

Files: `wrappers.dfy` (Option, Result, Outcome), `text.dfy` (substring search, i.e.
Python's `in` on strings), `netmiko.dfy` (the session abstraction) and `asa.dfy` (the
driver).

The model follows the code where it departs from what a NAPALM driver is generally
expected to do:
- `commit_config` does not apply a diff. It raises `NotImplementedError` and changes
  nothing.
- `compare_config` has no explicit "no candidate" check. With no candidate it still
  sends `show running-config` and then fails with an `AttributeError` on
  `None.splitlines()`. The model returns that error after the read.
- Loading with neither a usable file name nor text leaves the candidate as it was and
  still reports success. Loading an empty file sets the candidate to the empty text,
  which is not the same as no candidate.
- The constructor never reads a `dest_file_system` option, even though the error
  message of `open` tells the user to set one. So `dest_file_system` is unset until the
  first `open` detects it.
- The constructor assigns `context` only when `optional_args` is given.
- `timeout` is stored but not passed to the connection handler.

## Model

| member | source | states |
|---|---|---|
| `Text.ContainsMeaning` | napalm_asa/asa.py:84 | The left-to-right scan `Text.Contains` used on replies is true exactly when the pattern occurs at some position of the text. This is Python's `in` on strings. |
| `Asa.Postprocess` | napalm_asa/asa.py:70-75 | The output post-processing step returns its input unchanged. |
| `Asa.Fallback` | napalm_asa/asa.py:81-85 | For a non-empty list: what is sent is a non-empty prefix of the list, in list order, each spelling once. The output is the reply to the last spelling sent, given everything sent before it. Sending stops before the end of the list only on a reply without `"% Invalid"`. |
| `Asa.FallbackSkipsOnlyRejected` | napalm_asa/asa.py:82-85 | Every spelling sent before the last one got a reply containing `"% Invalid"`. So nothing is sent after the first accepted reply. |
| `Asa.FallbackFirstAccepted` | napalm_asa/asa.py:82-85 | If `cmds[k]` is the first spelling whose reply lacks `"% Invalid"`, then exactly `cmds[..k+1]` are sent and that reply is returned. |
| `Asa.FallbackAllRejected` | napalm_asa/asa.py:82-88 | If every reply contains `"% Invalid"`, then every spelling is sent exactly once, in order, and the last reply is returned. |
| `Asa.Send` | napalm_asa/asa.py:77-88 | A single command is sent exactly once and its reply is returned unchanged. A list follows the fallback rule. |
| `Asa.SendOneAlternative` | napalm_asa/asa.py:81-87 | A one-element list sends and returns exactly what the same command given alone does. |
| `Asa.ConfigCommands` | napalm_asa/asa.py:104-112 | The startup command is sent iff `retrieve` is `startup` or `all`. The running command is sent iff `retrieve` is `running` or `all`. When both are sent, startup comes first. Any other scope sends nothing. |
| `Asa.Configs` | napalm_asa/asa.py:98-114 | The record has exactly the keys `startup`, `running` and `candidate`, and `candidate` is always empty. `startup` holds the reply to the first command sent when wanted, and is empty otherwise. `running` holds the reply to the last command sent when wanted, and is empty otherwise. |
| `Asa.ConfigsOtherScope` | napalm_asa/asa.py:104-114 | Any scope other than `startup`, `running` or `all` sends no command and returns three empty texts. |
| `Asa.OpenCommands` | napalm_asa/asa.py:53-64 | `open` first sends `enable`, then `changeto system`. A third command, `"changeto context " + context`, is sent iff `open` got past file-system detection and the context is non-empty and not `system`. |
| `Asa.NextCandidate` | napalm_asa/asa.py:116-121 | A truthy, readable file name sets the candidate to the file's contents. Otherwise truthy text sets it to that text. Otherwise, or when the file cannot be opened, the candidate is unchanged. |
| `Asa.NextCandidateIgnoresConfig` | napalm_asa/asa.py:117-121 | When a truthy file name is given, the configuration text has no effect on the result. |
| `Asa.NextCandidateIdempotent` | napalm_asa/asa.py:116-121 | Loading the same inputs twice leaves the same candidate as loading them once. |
| `Asa.AsaDriver.constructor` | napalm_asa/asa.py:30-45 | After construction there is no connection, no candidate and no file system. Credentials and timeout are stored. `context` takes the `context` option when optional arguments are given, and is otherwise unassigned. |
| `Asa.AsaDriver.Open` | napalm_asa/asa.py:47-64 | A fresh connection to the stored host with the stored credentials. Its history is exactly `Asa.OpenCommands`. The file system is detected only when none is known yet. A missing probe raises the driver's `AttributeError` message before the context switch. The candidate and the context are kept. |
| `Asa.AsaDriver.SendCommand` | napalm_asa/asa.py:77-88 | Appends exactly the commands `Asa.Send` gives to the session history, and returns `Asa.Send`'s output. |
| `Asa.AsaDriver.TryInOrder` | napalm_asa/asa.py:81-85 | The `for`/`break` loop over a list: appends exactly `Asa.Fallback`'s sent commands to the history and returns its output. |
| `Asa.AsaDriver.GetConfig` | napalm_asa/asa.py:90-114 | The history grows by exactly `Asa.ConfigCommands(retrieve)`, and the result is `Asa.Configs` of the prior history. |
| `Asa.AsaDriver.CompareConfig` | napalm_asa/asa.py:124-129 | `show running-config` is sent in every case. With no candidate the call fails with `AttributeError`. Otherwise it returns the rendered difference between the running reply and the candidate. |
| `Asa.AsaDriver.LoadReplaceCandidate` | napalm_asa/asa.py:116-122 | The new candidate is `Asa.NextCandidate` of the old one. The call returns `(True, "Candidate loaded to memory (no ASA support)")` unless the named file cannot be opened. |
| `Asa.AsaDriver.DiscardConfig` | napalm_asa/asa.py:131-132 | The candidate becomes None from any state. |
| `Asa.AsaDriver.CommitConfig` | napalm_asa/asa.py:134-135 | Always fails with `NotImplementedError`. It modifies nothing. |
| `Asa.LoadThenDiscard` | napalm_asa/asa.py:131-132 | After any load followed by a discard, the candidate, file system and context equal those of a freshly constructed driver. |

## Left out

- `close` (`device.disconnect()`): it only tears down the SSH session, which the model does not represent.
- Connection establishment by netmiko's `ConnectHandler` is modelled only as a fresh `Netmiko.Connection` with an empty history. Login and terminal set-up are not recorded.
- `enable()` is one history entry, `enable`. Netmiko's prompt check and password exchange are not recorded.
- `_autodetect_fs` is the oracle's answer. The commands it sends itself are not recorded, and an exception other than `AttributeError` is not modelled.
- `Asa.AsaDriver.Open`: requires that the constructor assigned `context`, that is, that optional arguments were given. Without them the source raises `AttributeError` at the context check, after it has connected and detected the file system.
- `Asa.AsaDriver.SendCommand`: requires a non-empty list. With an empty list the source hits an unbound local variable.
- `Asa.AsaDriver.SendCommand`, `Asa.AsaDriver.GetConfig` and `Asa.AsaDriver.CompareConfig`: require an open connection. Before `open` the source fails on `None.send_command`.
- Python's dynamic typing of `_send_command`'s argument: only a string or a list is modelled.
- `compare_config`'s `splitlines`, `difflib.unified_diff` and `"\n".join` are one abstract `render` function. The diff algorithm belongs to the Python standard library, not to this driver.
- File reading in `load_replace_candidate` works on a snapshot `files` from name to contents. Every failure to open a file is one error, `FileError`. Encoding errors are not modelled.
- Transport timeouts and other exceptions raised inside netmiko are not modelled.
- Facts, interfaces, counters, uptime, ping and config-cleaning parsers are not in this source and are not modelled.
