# Host evacuation task of the ROCK HA engine, in Dafny

This project models `HostEvacuate`, the task the ROCK high-availability engine
runs when a compute host has failed. The task works in four steps:

1. It lists the servers on the failed host.
2. It records each server's id and sends one evacuation request per server,
   always with the shared-storage flag set.
3. It reads every recorded server back. A server counts as evacuated when it
   has no task state and its host is no longer the failed host.
4. It builds one alert payload per server. Every payload has the same fixed
   fields. Its summary names the server, its addresses and its host, and ends
   with ` HA成功` (success) or ` HA失败` (failure).

Everything is in module `HostEvacuate` (`host_evacuate.dfy`).
`Wrappers` (`wrappers.dfy`) holds the `Option` and `Result` types.

The source's loops are methods proved against specification functions:
`Execute`, `GetEvacuateResults` and `GetVmIp`. Payload construction is the
function `MakeVmEvacuateResult`. The task object only holds the workflow id
(`taskflow_uuid`) and never changes it, so the id is passed as a parameter.

The remote and time-dependent parts are inputs to the model:

- **Server listing:** the sequence `servers`.
- **Evacuation response:** `accepts(id)`, the response's `accepted` flag.
- **Snapshot after evacuation:** `snapshot(id)`.
- **Timestamp:** `clock(i)`, the formatted time at which the i-th payload is built.

Attributes read with `getattr` are modelled as `Missing`, `Null` or `Text`:

- **Classification** (`getattr(vm, name, None)`) reads an absent attribute and a
  null one the same way.
- **The summary** reads the host attribute with no default (`str(getattr(vm, 'OS-EXT-SRV-ATTR:host'))`).
  An absent host attribute therefore raises. A null host renders as `None`.

The model keeps three behaviours of the code as it is written:

- **A snapshot without a host attribute.** With no task state it is classified
  as a success; on either branch, building its payload raises (lines 70 and 75).
  That stops `get_evacuate_results` at the first such server
  (`HostAttributeMissing`).
- **A listed server without an id.** Line 30 reads `server.id` before the
  `hasattr` check at line 32, so such a server raises at line 30. Requests have
  already gone out for the servers before it (`ServerWithoutId`). The `else`
  branch at lines 40-41 can never run.
- **The trailing comma.** `get_vm_ip` discards the result of `rstrip(',')`, so
  its result ends with a comma whenever the server has an address.

`get_evacuate_results` does not catch a failing `servers.get`, and
`make_vm_evacuate_result` raises when the host attribute is absent; the model
does the same for the attribute (the lookup itself is an input, see below).

## Model

| member | source | states |
|---|---|---|
| `HostEvacuate.Execute` | rock/tasks/host_evacuate.py:20-45 | One request per listed server, in listing order, each with the shared-storage flag `true` and the response's accepted flag; a rejected request does not stop later ones. Ids are recorded in order whatever the responses, and the result is the report for those ids against the target host. A server without an id raises after the requests for the servers before it. |
| `HostEvacuate.IdentifiedPrefixLength` | rock/tasks/host_evacuate.py:29-31 | The number of leading listed servers that have an id: all servers before it have one, and the server at that position (if any) has none, which is where `execute` raises. |
| `HostEvacuate.GetEvacuateResults` | rock/tasks/host_evacuate.py:47-63 | Exactly one payload per input id, in input order, each built from that id's snapshot with the verdict `Succeeded`. The run succeeds iff every snapshot has a host attribute; otherwise it fails with the first missing one. Every payload carries the fixed fields and the snapshot's id, and its summary reports success iff the server left the origin host. |
| `HostEvacuate.ReportSucceedsIffHostsPresent` | rock/tasks/host_evacuate.py:49-63 | The report is a success exactly when no snapshot lacks the host attribute. |
| `HostEvacuate.ReportIsUnique` | rock/tasks/host_evacuate.py:47-63 | The report is determined by the ids, the snapshots, the origin host and the timestamps: reading the same snapshots again yields the same payloads or the same error. |
| `HostEvacuate.Succeeded` | rock/tasks/host_evacuate.py:51-53 | Success iff the task state is absent or null and the host is not the origin host. So a server with no host attribute and no task state succeeds, and a server with any task in flight fails even if its host moved. |
| `HostEvacuate.VerdictDependsOnlyOnTaskStateAndHost` | rock/tasks/host_evacuate.py:50-53 | Two snapshots that read the same task state and host (absent and null being the same) get the same verdict. |
| `HostEvacuate.StrAttr` | rock/tasks/host_evacuate.py:70 | Reading an attribute with no default fails exactly when it is absent; a present string reads as itself. |
| `HostEvacuate.MakeVmEvacuateResult` | rock/tasks/host_evacuate.py:65-98 | Building the payload raises exactly when the snapshot has no host attribute. The source raises an `AttributeError` naming the attribute; the server id carried by `HostAttributeMissing` is added by the model. |
| `HostEvacuate.PayloadShape` | rock/tasks/host_evacuate.py:66-97 | Every payload has `Severity` `'2'`, `status` 1, `sourceID` 10, `sourceAlertKey` `'ROCK_VM_HA'` and `SourceSeverity` `'INFO'`. `SourceEventID` is the workflow id, `sourceCIName` is the server id and `LastOccurrence` is the given time. The summary is exactly `'vm ' + id + '/' + ips + ' ' + hostid + '/' + host` followed by `' HA成功'` or `' HA失败'`, where `host` is the host text, or `None` when it is null. The summary reads as a success iff the payload was built as one. |
| `HostEvacuate.SuccessAndFailureDifferOnlyInSuffix` | rock/tasks/host_evacuate.py:67-76 | The success and the failure payload of a server agree on every field except the summary. The two summaries have the same stem, `'vm ' + id + '/' + ips + ' ' + hostid + '/' + host`, and end in `' HA成功'` and `' HA失败'`. Suffix lengths are counted in characters, not UTF-8 bytes. |
| `HostEvacuate.GetVmIp` | rock/tasks/host_evacuate.py:100-106 | Returns every address of every network, in order, each followed by `','`; the discarded `rstrip` leaves the result unchanged. |
| `HostEvacuate.IpListShape` | rock/tasks/host_evacuate.py:100-106 | The IP list is empty iff no network has an address. Otherwise it ends with `','`. Its length is the sum of (address length + 1). |
| `HostEvacuate.RenderedLength` | rock/tasks/host_evacuate.py:103-104 | The length of the rendered addresses is the sum of (address length + 1). |
| `HostEvacuate.RenderedTrailingComma` | rock/tasks/host_evacuate.py:103-105 | The rendering is empty iff there is no address, and otherwise its last character is `','`. |
| `HostEvacuate.RenderedIsJoinedWithTrailingComma` | rock/tasks/host_evacuate.py:101-106 | For at least one address, the result is the comma-joined addresses plus one trailing comma. When the last address is non-empty and does not end in `','`, the joined list is what the discarded `rstrip(',')` on line 105 would have returned. |

## Left out

- The compute API calls `servers.list` and `servers.get`, and the evacuation
  action `ServerEvacuate().execute`. They are remote calls: their results are
  inputs. A failing `servers.get` (a server that has disappeared) is not
  modelled, because the snapshot function is total.
- `time.sleep(90)` and `datetime.utcnow()`. The sleep has no effect on the
  values computed. The formatted time of each payload is an input.
- All logging, including the accept/reject log lines. The accepted flag is
  kept in each `EvacuationRequest`.
- Python 2 `unicode(...)` and `str(...)` coercions: hosts and ids are strings.
  The order of the `vm.networks` dictionary is modelled as the order of a
  sequence of networks.
- `HostEvacuate.__init__` only stores `taskflow_uuid`, which the operations take
  as a parameter.
- Configuration loading (`rock/rock_engine.py`), the exception classes
  (`rock/exceptions.py`) and the database model
  (`rock/db/sqlalchemy/model_nova_service.py`) have no logic that this task uses.
- Polling until settled, precondition checks and rollback are not part of this
  task's code.
