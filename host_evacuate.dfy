/**
  The host-evacuation task of the ROCK high-availability engine: for every
  server the compute API lists on a failed host, request its evacuation, then
  read each server back, decide whether it left the host, and build one alert
  payload per server.

  The compute API, the evacuation action, the sleep and the wall clock are not
  modelled; what they return is given to the operations as parameters:
  the listing as a sequence, the evacuation response and the post-evacuation
  snapshot as functions of the server id, and the formatted time of the i-th
  payload as `clock(i)`.
 */
module HostEvacuate {
  import opened Wrappers

  // ---------------------------------------------------------------------------
  // Data model
  // ---------------------------------------------------------------------------

  /** An attribute of a server record returned by the compute API: absent from
      the record, present with a null value, or present with a string. */
  datatype Attribute = Missing | Null | Text(text: string)

  /** One named network of a server and its addresses, in order. */
  datatype Network = Network(name: string, addresses: seq<string>)

  /** A server as the listing returns it; `id` is None when the record has none. */
  datatype ListedServer = ListedServer(id: Option<string>)

  /** A server as read back after the evacuation requests. */
  datatype VmSnapshot = VmSnapshot(
    id: string,
    hostid: string,
    taskState: Attribute,   // OS-EXT-STS:task_state
    host: Attribute,        // OS-EXT-SRV-ATTR:host
    networks: seq<Network>)

  /** One evacuation request sent for a server, with the response's `accepted` flag. */
  datatype EvacuationRequest = EvacuationRequest(serverId: string, onSharedStorage: bool, accepted: bool)

  /** The alert payload built for one server. */
  datatype Alert = Alert(
    severity: string,
    summary: string,
    lastOccurrence: string,
    status: int,
    sourceId: int,
    sourceEventId: string,
    sourceCiName: string,
    sourceAlertKey: string,
    sourceSeverity: string)

  /** The attribute errors the task raises. */
  datatype EvacuateError =
    | ServerWithoutId(position: nat)    // a listed server has no `id`
    | HostAttributeMissing(vmId: string) // a snapshot has no host attribute

  const SuccessSuffix: string := " HA成功"
  const FailureSuffix: string := " HA失败"

  // ---------------------------------------------------------------------------
  // Attribute access
  // ---------------------------------------------------------------------------

  /** `getattr(vm, name, None)`: an absent and a null attribute both read as None. */
  function GetAttrOrNone(a: Attribute): Option<string>
  {
    match a
    case Text(s) => Some(s)
    case _ => None
  }

  /** `str(getattr(vm, name))` with no default: None stands for the raised
      AttributeError; a null value renders as "None". */
  function StrAttr(a: Attribute): (r: Option<string>)
    ensures r.None? <==> a.Missing?
    ensures a.Text? ==> r == Some(a.text)
  {
    match a
    case Missing => None
    case Null => Some("None")
    case Text(s) => Some(s)
  }

  // ---------------------------------------------------------------------------
  // IP-list rendering (get_vm_ip)
  // ---------------------------------------------------------------------------

  /** Every address of every network, in network order. */
  function Addresses(networks: seq<Network>): seq<string>
  {
    if networks == [] then [] else networks[0].addresses + Addresses(networks[1..])
  }

  /** Each address followed by a comma. */
  function Rendered(ips: seq<string>): string
  {
    if ips == [] then "" else ips[0] + "," + Rendered(ips[1..])
  }

  /** The string get_vm_ip returns for a server with these networks. */
  function IpList(networks: seq<Network>): string
  {
    Rendered(Addresses(networks))
  }

  /** The addresses joined with commas, with no comma after the last one. */
  function Joined(ips: seq<string>): string
  {
    if ips == [] then ""
    else if |ips| == 1 then ips[0]
    else ips[0] + "," + Joined(ips[1..])
  }

  /** The sum over the addresses of their length plus one. */
  function RenderedSize(ips: seq<string>): nat
  {
    if ips == [] then 0 else |ips[0]| + 1 + RenderedSize(ips[1..])
  }

  lemma {:induction false} AddressesConcat(a: seq<Network>, b: seq<Network>)
    ensures Addresses(a + b) == Addresses(a) + Addresses(b)
  {
    if a == [] {
      assert a + b == b;
    } else {
      assert (a + b)[1..] == a[1..] + b;
      AddressesConcat(a[1..], b);
    }
  }

  lemma {:induction false} RenderedConcat(a: seq<string>, b: seq<string>)
    ensures Rendered(a + b) == Rendered(a) + Rendered(b)
  {
    if a == [] {
      assert a + b == b;
    } else {
      assert (a + b)[1..] == a[1..] + b;
      RenderedConcat(a[1..], b);
    }
  }

  /** Appending one address appends it and a comma to the rendering. */
  lemma RenderedSnoc(ips: seq<string>, ip: string)
    ensures Rendered(ips + [ip]) == Rendered(ips) + ip + ","
  {
    RenderedConcat(ips, [ip]);
    assert Rendered([ip]) == ip + "," + Rendered([]);
  }

  /** Appending one network appends its addresses. */
  lemma AddressesSnoc(networks: seq<Network>, i: nat)
    requires i < |networks|
    ensures Addresses(networks[..i + 1]) == Addresses(networks[..i]) + networks[i].addresses
  {
    assert networks[..i + 1] == networks[..i] + [networks[i]];
    AddressesConcat(networks[..i], [networks[i]]);
    assert Addresses([networks[i]]) == networks[i].addresses + Addresses([]);
  }

  /** get_vm_ip (host_evacuate.py:100-106): appends `ip + ","` for every
      address of every network; the `rstrip(',')` result is discarded, so the
      string returned is exactly IpList(vm.networks). */
  method GetVmIp(vm: VmSnapshot) returns (vmIp: string)
    ensures vmIp == IpList(vm.networks)
  {
    vmIp := "";
    var i := 0;
    while i < |vm.networks|
      invariant 0 <= i <= |vm.networks|
      invariant vmIp == Rendered(Addresses(vm.networks[..i]))
    {
      var ips := vm.networks[i].addresses;
      ghost var done := Addresses(vm.networks[..i]);
      var j := 0;
      assert done + ips[..0] == done;
      while j < |ips|
        invariant 0 <= j <= |ips|
        invariant vmIp == Rendered(done + ips[..j])
      {
        RenderedSnoc(done + ips[..j], ips[j]);
        assert done + ips[..j + 1] == (done + ips[..j]) + [ips[j]];
        vmIp := vmIp + ips[j] + ",";
        j := j + 1;
      }
      AddressesSnoc(vm.networks, i);
      assert ips[..|ips|] == ips;
      i := i + 1;
    }
    assert vm.networks[..|vm.networks|] == vm.networks;
  }

  /** The rendered list's length is the sum of (address length + 1). */
  lemma {:induction false} RenderedLength(ips: seq<string>)
    ensures |Rendered(ips)| == RenderedSize(ips)
    ensures |Rendered(ips)| >= |ips|
  {
    if ips != [] {
      RenderedLength(ips[1..]);
    }
  }

  /** The rendered list is empty exactly when there is no address, and otherwise
      it ends with a comma. */
  lemma {:induction false} RenderedTrailingComma(ips: seq<string>)
    ensures Rendered(ips) == "" <==> ips == []
    ensures ips != [] ==> Rendered(ips)[|Rendered(ips)| - 1] == ','
  {
    if ips != [] {
      var rest := Rendered(ips[1..]);
      assert Rendered(ips) == ips[0] + "," + rest;
      if ips[1..] != [] {
        RenderedTrailingComma(ips[1..]);
      } else {
        assert rest == "";
      }
    }
  }

  /** The rendered list is the comma-joined list plus one trailing comma. When
      the last address is non-empty and does not itself end in a comma, the
      joined list is what the discarded `rstrip(',')` would have returned; it
      strips every trailing comma, so for ["a", ""] it would give "a", not "a,". */
  lemma {:induction false} RenderedIsJoinedWithTrailingComma(ips: seq<string>)
    requires ips != []
    ensures Rendered(ips) == Joined(ips) + ","
  {
    if |ips| == 1 {
      assert ips[1..] == [];
    } else {
      RenderedIsJoinedWithTrailingComma(ips[1..]);
    }
  }

  /** There is no address at all exactly when no network has an address. */
  lemma {:induction false} AddressesEmpty(networks: seq<Network>)
    ensures Addresses(networks) == [] <==> forall k :: 0 <= k < |networks| ==> networks[k].addresses == []
  {
    if networks != [] {
      AddressesEmpty(networks[1..]);
      assert forall k :: 1 <= k < |networks| ==> networks[1..][k - 1] == networks[k];
    }
  }

  /** What get_vm_ip returns: empty exactly when the server has no address,
      otherwise ending in a comma; its length is the sum of (address length + 1). */
  lemma IpListShape(networks: seq<Network>)
    ensures IpList(networks) == "" <==> forall k :: 0 <= k < |networks| ==> networks[k].addresses == []
    ensures IpList(networks) != "" ==> IpList(networks)[|IpList(networks)| - 1] == ','
    ensures |IpList(networks)| == RenderedSize(Addresses(networks))
  {
    AddressesEmpty(networks);
    RenderedTrailingComma(Addresses(networks));
    RenderedLength(Addresses(networks));
  }

  // ---------------------------------------------------------------------------
  // Outcome classification
  // ---------------------------------------------------------------------------

  /** The test of get_evacuate_results (host_evacuate.py:51-53): the server left
      the origin host when it has no task state (absent or null) and its host
      (absent or null reads as None) is not the origin host. */
  function Succeeded(vm: VmSnapshot, originHost: string): (ok: bool)
    ensures ok <==> (vm.taskState.Missing? || vm.taskState.Null?) && vm.host != Text(originHost)
  {
    GetAttrOrNone(vm.taskState) == None && GetAttrOrNone(vm.host) != Some(originHost)
  }

  /** The verdict reads nothing but the task state and the host, and does not
      tell an absent attribute from a null one. */
  lemma VerdictDependsOnlyOnTaskStateAndHost(a: VmSnapshot, b: VmSnapshot, originHost: string)
    requires GetAttrOrNone(a.taskState) == GetAttrOrNone(b.taskState)
    requires GetAttrOrNone(a.host) == GetAttrOrNone(b.host)
    ensures Succeeded(a, originHost) == Succeeded(b, originHost)
  {
  }

  // ---------------------------------------------------------------------------
  // Alert payload (make_vm_evacuate_result)
  // ---------------------------------------------------------------------------

  /** The payload fields that do not depend on the outcome. */
  predicate HasFixedFields(a: Alert, taskflowUuid: string, vmId: string, lastOccurrence: string)
  {
    a.severity == "2" && a.status == 1 && a.sourceId == 10 &&
    a.sourceAlertKey == "ROCK_VM_HA" && a.sourceSeverity == "INFO" &&
    a.sourceEventId == taskflowUuid && a.sourceCiName == vmId &&
    a.lastOccurrence == lastOccurrence
  }

  /** A summary reads as a success when it ends with the success suffix. */
  predicate SummaryReportsSuccess(summary: string)
  {
    |summary| >= |SuccessSuffix| && summary[|summary| - |SuccessSuffix|..] == SuccessSuffix
  }

  /** The summary with its outcome suffix removed. Both suffixes have the same
      length in characters (the model counts characters, not UTF-8 bytes). */
  function SummaryStem(summary: string): string
  {
    if |summary| < |SuccessSuffix| then summary else summary[..|summary| - |SuccessSuffix|]
  }

  /** make_vm_evacuate_result (host_evacuate.py:65-98): the fixed-shape payload;
      it raises when the snapshot has no host attribute, which the summary reads
      without a default. */
  function MakeVmEvacuateResult(taskflowUuid: string, vm: VmSnapshot, success: bool, lastOccurrence: string)
    : (r: Result<Alert, EvacuateError>)
    ensures r.Failure? <==> vm.host.Missing?
    ensures r.Failure? ==> r.error == HostAttributeMissing(vm.id)
  {
    match StrAttr(vm.host)
    case None => Failure(HostAttributeMissing(vm.id))
    case Some(hostText) =>
      var stem := "vm " + vm.id + "/" + IpList(vm.networks) + " " + vm.hostid + "/" + hostText;
      var summary := if success then stem + SuccessSuffix else stem + FailureSuffix;
      Success(Alert(
        severity := "2",
        summary := summary,
        lastOccurrence := lastOccurrence,
        status := 1,
        sourceId := 10,
        sourceEventId := taskflowUuid,
        sourceCiName := vm.id,
        sourceAlertKey := "ROCK_VM_HA",
        sourceSeverity := "INFO"))
  }

  /** Every payload has the fixed fields and the summary
      'vm <id>/<ips> <hostid>/<host>' followed by the outcome suffix, where the
      host is its text, or "None" when it is null; the summary reads as a
      success exactly when the payload was built as one. */
  lemma PayloadShape(taskflowUuid: string, vm: VmSnapshot, success: bool, lastOccurrence: string)
    ensures
      var r := MakeVmEvacuateResult(taskflowUuid, vm, success, lastOccurrence);
      var head := "vm " + vm.id + "/" + IpList(vm.networks) + " " + vm.hostid + "/";
      r.Success? ==>
        HasFixedFields(r.value, taskflowUuid, vm.id, lastOccurrence) &&
        r.value.summary == head + (if vm.host.Null? then "None" else vm.host.text)
                                + (if success then SuccessSuffix else FailureSuffix) &&
        SummaryReportsSuccess(r.value.summary) == success &&
        |head| <= |r.value.summary| && r.value.summary[..|head|] == head
  {
    var r := MakeVmEvacuateResult(taskflowUuid, vm, success, lastOccurrence);
    if r.Success? {
      var head := "vm " + vm.id + "/" + IpList(vm.networks) + " " + vm.hostid + "/";
      var stem := head + StrAttr(vm.host).value;
      var suffix := if success then SuccessSuffix else FailureSuffix;
      assert r.value.summary == stem + suffix;
      assert r.value.summary[..|head|] == head;
      assert r.value.summary[|r.value.summary| - |SuccessSuffix|..] == suffix;
    }
  }

  /** The success and the failure payload of one server agree in every field
      but the summary, and the two summaries share their stem and differ only
      in the suffix " HA成功" / " HA失败"; the stem is the summary up to and
      including the host. */
  lemma SuccessAndFailureDifferOnlyInSuffix(taskflowUuid: string, vm: VmSnapshot, lastOccurrence: string)
    ensures
      var s := MakeVmEvacuateResult(taskflowUuid, vm, true, lastOccurrence);
      var f := MakeVmEvacuateResult(taskflowUuid, vm, false, lastOccurrence);
      s.Success? == f.Success? &&
      (s.Success? ==>
        s.value.(summary := "") == f.value.(summary := "") &&
        SummaryStem(s.value.summary) == SummaryStem(f.value.summary) &&
        SummaryStem(s.value.summary) ==
          "vm " + vm.id + "/" + IpList(vm.networks) + " " + vm.hostid + "/" + StrAttr(vm.host).value &&
        s.value.summary == SummaryStem(s.value.summary) + SuccessSuffix &&
        f.value.summary == SummaryStem(s.value.summary) + FailureSuffix)
  {
    var s := MakeVmEvacuateResult(taskflowUuid, vm, true, lastOccurrence);
    var f := MakeVmEvacuateResult(taskflowUuid, vm, false, lastOccurrence);
    if s.Success? {
      var stem := "vm " + vm.id + "/" + IpList(vm.networks) + " " + vm.hostid + "/" + StrAttr(vm.host).value;
      assert s.value.summary == stem + SuccessSuffix;
      assert f.value.summary == stem + FailureSuffix;
      assert SummaryStem(s.value.summary) == stem;
      assert SummaryStem(f.value.summary) == stem;
    }
  }

  // ---------------------------------------------------------------------------
  // Classification of every server (get_evacuate_results)
  // ---------------------------------------------------------------------------

  /** The payload built for the server with this id, read back after evacuation. */
  function ReportEntry(taskflowUuid: string, snapshot: string -> VmSnapshot, vmId: string,
                       originHost: string, lastOccurrence: string): Result<Alert, EvacuateError>
  {
    var vm := snapshot(vmId);
    MakeVmEvacuateResult(taskflowUuid, vm, Succeeded(vm, originHost), lastOccurrence)
  }

  /** What get_evacuate_results returns for these ids: one payload per id, in
      order, when every snapshot has a host attribute; otherwise the error of
      the first snapshot without one. */
  ghost predicate IsEvacuationReport(results: Result<seq<Alert>, EvacuateError>, taskflowUuid: string,
                                     snapshot: string -> VmSnapshot, vmIds: seq<string>,
                                     originHost: string, clock: nat -> string)
  {
    match results
    case Success(alerts) =>
      |alerts| == |vmIds| &&
      forall i :: 0 <= i < |vmIds| ==>
        Success(alerts[i]) == ReportEntry(taskflowUuid, snapshot, vmIds[i], originHost, clock(i))
    case Failure(e) =>
      exists k :: IsFirstMissingHost(snapshot, vmIds, k) && e == HostAttributeMissing(snapshot(vmIds[k]).id)
  }

  /** The snapshot of vmIds[k] is the first one without a host attribute. */
  ghost predicate IsFirstMissingHost(snapshot: string -> VmSnapshot, vmIds: seq<string>, k: int)
  {
    0 <= k < |vmIds| &&
    (forall j :: 0 <= j < k ==> !snapshot(vmIds[j]).host.Missing?) &&
    snapshot(vmIds[k]).host.Missing?
  }

  /** get_evacuate_results (host_evacuate.py:47-63). */
  method GetEvacuateResults(taskflowUuid: string, snapshot: string -> VmSnapshot, vmIds: seq<string>,
                            originHost: string, clock: nat -> string)
    returns (results: Result<seq<Alert>, EvacuateError>)
    ensures IsEvacuationReport(results, taskflowUuid, snapshot, vmIds, originHost, clock)
    ensures results.Success? <==> forall i :: 0 <= i < |vmIds| ==> !snapshot(vmIds[i]).host.Missing?
    ensures results.Success? ==> ReportDescribesVerdicts(results.value, taskflowUuid, snapshot, vmIds, originHost, clock)
  {
    var alerts: seq<Alert> := [];
    var i := 0;
    while i < |vmIds|
      invariant 0 <= i <= |vmIds|
      invariant |alerts| == i
      invariant forall k :: 0 <= k < i ==> !snapshot(vmIds[k]).host.Missing?
      invariant forall k :: 0 <= k < i ==>
        Success(alerts[k]) == ReportEntry(taskflowUuid, snapshot, vmIds[k], originHost, clock(k))
    {
      var vm := snapshot(vmIds[i]);
      var vmTaskState := GetAttrOrNone(vm.taskState);
      var vmHost := GetAttrOrNone(vm.host);
      var success := vmTaskState == None && vmHost != Some(originHost);
      var single := MakeVmEvacuateResult(taskflowUuid, vm, success, clock(i));
      if single.Failure? {
        results := Failure(single.error);
        assert IsFirstMissingHost(snapshot, vmIds, i);
        ReportSucceedsIffHostsPresent(results, taskflowUuid, snapshot, vmIds, originHost, clock);
        return;
      }
      alerts := alerts + [single.value];
      i := i + 1;
    }
    results := Success(alerts);
    ReportSucceedsIffHostsPresent(results, taskflowUuid, snapshot, vmIds, originHost, clock);
    ReportPayloads(alerts, taskflowUuid, snapshot, vmIds, originHost, clock);
  }

  /** Each payload of a report carries the fixed fields and the snapshot's id,
      and its summary reads as a success exactly when the server left the
      origin host. */
  ghost predicate ReportDescribesVerdicts(alerts: seq<Alert>, taskflowUuid: string,
                                          snapshot: string -> VmSnapshot, vmIds: seq<string>,
                                          originHost: string, clock: nat -> string)
  {
    |alerts| == |vmIds| &&
    forall i :: 0 <= i < |vmIds| ==>
      HasFixedFields(alerts[i], taskflowUuid, snapshot(vmIds[i]).id, clock(i)) &&
      (SummaryReportsSuccess(alerts[i].summary) <==> Succeeded(snapshot(vmIds[i]), originHost))
  }

  /** What a successful report says about each server. */
  lemma ReportPayloads(alerts: seq<Alert>, taskflowUuid: string, snapshot: string -> VmSnapshot,
                       vmIds: seq<string>, originHost: string, clock: nat -> string)
    requires IsEvacuationReport(Success(alerts), taskflowUuid, snapshot, vmIds, originHost, clock)
    ensures ReportDescribesVerdicts(alerts, taskflowUuid, snapshot, vmIds, originHost, clock)
  {
    forall i | 0 <= i < |vmIds|
      ensures HasFixedFields(alerts[i], taskflowUuid, snapshot(vmIds[i]).id, clock(i))
      ensures SummaryReportsSuccess(alerts[i].summary) <==> Succeeded(snapshot(vmIds[i]), originHost)
    {
      assert Success(alerts[i]) == ReportEntry(taskflowUuid, snapshot, vmIds[i], originHost, clock(i));
      var vm := snapshot(vmIds[i]);
      PayloadShape(taskflowUuid, vm, Succeeded(vm, originHost), clock(i));
    }
  }

  /** A report is a success exactly when every snapshot has a host attribute. */
  lemma ReportSucceedsIffHostsPresent(results: Result<seq<Alert>, EvacuateError>, taskflowUuid: string,
                                      snapshot: string -> VmSnapshot, vmIds: seq<string>,
                                      originHost: string, clock: nat -> string)
    requires IsEvacuationReport(results, taskflowUuid, snapshot, vmIds, originHost, clock)
    ensures results.Success? <==> forall i :: 0 <= i < |vmIds| ==> !snapshot(vmIds[i]).host.Missing?
  {
    if results.Success? {
      forall i | 0 <= i < |vmIds|
        ensures !snapshot(vmIds[i]).host.Missing?
      {
        assert Success(results.value[i]) == ReportEntry(taskflowUuid, snapshot, vmIds[i], originHost, clock(i));
      }
    }
  }

  /** Reading the same snapshots again yields the same report: the report is a
      function of the ids, the snapshots and the timestamps. */
  lemma ReportIsUnique(r1: Result<seq<Alert>, EvacuateError>, r2: Result<seq<Alert>, EvacuateError>,
                       taskflowUuid: string, snapshot: string -> VmSnapshot, vmIds: seq<string>,
                       originHost: string, clock: nat -> string)
    requires IsEvacuationReport(r1, taskflowUuid, snapshot, vmIds, originHost, clock)
    requires IsEvacuationReport(r2, taskflowUuid, snapshot, vmIds, originHost, clock)
    ensures r1 == r2
  {
    ReportSucceedsIffHostsPresent(r1, taskflowUuid, snapshot, vmIds, originHost, clock);
    ReportSucceedsIffHostsPresent(r2, taskflowUuid, snapshot, vmIds, originHost, clock);
    if r1.Success? {
      assert forall i :: 0 <= i < |vmIds| ==> r1.value[i] == r2.value[i];
      assert r1.value == r2.value;
    } else {
      var k1 :| IsFirstMissingHost(snapshot, vmIds, k1) && r1.error == HostAttributeMissing(snapshot(vmIds[k1]).id);
      var k2 :| IsFirstMissingHost(snapshot, vmIds, k2) && r2.error == HostAttributeMissing(snapshot(vmIds[k2]).id);
      assert k1 == k2;
    }
  }

  // ---------------------------------------------------------------------------
  // Discovery, evacuation requests and the whole task (execute)
  // ---------------------------------------------------------------------------

  /** How many listed servers, from the first, carry an id. */
  function IdentifiedPrefixLength(servers: seq<ListedServer>): (n: nat)
    ensures n <= |servers|
    ensures forall j :: 0 <= j < n ==> servers[j].id.Some?
    ensures n < |servers| ==> servers[n].id.None?
  {
    if servers == [] || servers[0].id.None? then 0
    else 1 + IdentifiedPrefixLength(servers[1..])
  }

  /** The ids of servers that all carry one, in listing order. */
  function Ids(servers: seq<ListedServer>): (ids: seq<string>)
    requires forall j :: 0 <= j < |servers| ==> servers[j].id.Some?
  {
    seq(|servers|, j requires 0 <= j < |servers| => servers[j].id.value)
  }

  /** execute (host_evacuate.py:20-45): for every listed server, in order,
      record its id and then request its evacuation with the shared-storage
      flag set; a rejected request is only logged. Reading the id of a server
      that has none raises, after the requests for the servers before it.
      Then every recorded id is classified against the evacuated host. */
  method Execute(taskflowUuid: string, target: string, servers: seq<ListedServer>,
                 accepts: string -> bool, snapshot: string -> VmSnapshot, clock: nat -> string)
    returns (requests: seq<EvacuationRequest>, results: Result<seq<Alert>, EvacuateError>)
    ensures |requests| == IdentifiedPrefixLength(servers)
    ensures forall i :: 0 <= i < |requests| ==>
      servers[i].id.Some? &&
      requests[i] == EvacuationRequest(servers[i].id.value, true, accepts(servers[i].id.value))
    ensures IdentifiedPrefixLength(servers) < |servers| ==>
      results == Failure(ServerWithoutId(IdentifiedPrefixLength(servers)))
    ensures IdentifiedPrefixLength(servers) == |servers| ==>
      IsEvacuationReport(results, taskflowUuid, snapshot, Ids(servers), target, clock)
  {
    var evacuatedHost := target;
    var evacuatedServersId: seq<string> := [];
    requests := [];
    var i := 0;
    while i < |servers|
      invariant 0 <= i <= |servers|
      invariant forall j :: 0 <= j < i ==> servers[j].id.Some?
      invariant |evacuatedServersId| == i
      invariant forall j :: 0 <= j < i ==> evacuatedServersId[j] == servers[j].id.value
      invariant |requests| == i
      invariant forall j :: 0 <= j < i ==>
        requests[j] == EvacuationRequest(evacuatedServersId[j], true, accepts(evacuatedServersId[j]))
    {
      var server := servers[i];
      if server.id.None? {
        results := Failure(ServerWithoutId(i));
        return;
      }
      evacuatedServersId := evacuatedServersId + [server.id.value];
      var accepted := accepts(server.id.value);
      requests := requests + [EvacuationRequest(server.id.value, true, accepted)];
      i := i + 1;
    }
    assert evacuatedServersId == Ids(servers);
    results := GetEvacuateResults(taskflowUuid, snapshot, evacuatedServersId, evacuatedHost, clock);
  }
}
