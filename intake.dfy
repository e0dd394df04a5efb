/**
 * Patient registration (the `labo` socket handler): the record appended to
 * the patient ledger and the journal requests emitted back to the client, one
 * per selected service.
 */
module Intake {
  import opened Json
  import Journal

  /** `{ ...patientData, dateCreation }`: the ledger record. */
  function LedgerRecord(patient: map<string, Value>, dateCreation: string): (r: Value)
    ensures r.Obj? && r.fields.Keys == patient.Keys + {"dateCreation"}
    ensures r.fields["dateCreation"] == Str(dateCreation)
    ensures forall k :: k in patient && k != "dateCreation" ==> r.fields[k] == patient[k]
  {
    Obj(patient["dateCreation" := Str(dateCreation)])
  }

  /**
   * `patientData.servicesSelectionnes || []` as `for ... of` walks it: a
   * falsy value is no services, an array gives its elements and a string its
   * characters; any other value is not iterable and throws, which is `None`.
   */
  function SelectedServices(selection: Option<Value>): (r: Option<seq<Value>>)
    ensures !Truthy(selection) ==> r == Some([])
    ensures Truthy(selection) && selection.value.Arr? ==> r == Some(selection.value.items)
    ensures Truthy(selection) && selection.value.Str? ==> r == Some(Characters(selection.value.s))
    ensures r.None? <==> Truthy(selection) && !selection.value.Arr? && !selection.value.Str?
  {
    if !Truthy(selection) then Some([])
    else match selection.value
      case Arr(items) => Some(items)
      case Str(s) => Some(Characters(s))
      case _ => None
  }

  /** A string iterated by `for ... of`: one one-character string per character. */
  function Characters(s: string): (r: seq<Value>)
    ensures |r| == |s| && forall i :: 0 <= i < |s| ==> r[i] == Str([s[i]])
  {
    seq(|s|, i requires 0 <= i < |s| => Str([s[i]]))
  }

  /**
   * `typeof service === 'object' ? service.value : service` for a service
   * that is not `null` (reading `.value` of `null` throws).
   */
  function ServiceName(service: Value): (name: Option<Value>)
    requires service != Null
    ensures service.Obj? ==> name == Field(service, "value")
    ensures service.Arr? ==> name == None
    ensures !service.IsObjectLike() ==> name == Some(service)
  {
    if service.IsObjectLike() then Field(service, "value") else Some(service)
  }

  /** The entry sent with each request: the patient data tagged with the service and patient names. */
  function ServiceEntry(patient: map<string, Value>, name: Option<Value>): (f: map<string, Value>)
    ensures "service" in f <==> name.Some?
    ensures name.Some? ==> f["service"] == name.value
    ensures "patientName" in f <==> "nomClient" in patient
    ensures "nomClient" in patient ==> f["patientName"] == patient["nomClient"]
    ensures "patientId" in f <==> "numID_CSR" in patient
    ensures "numID_CSR" in patient ==> f["patientId"] == patient["numID_CSR"]
    ensures f.Keys <= patient.Keys + {"service", "patientName", "patientId"}
    ensures forall k :: k in patient && k !in {"service", "patientName", "patientId"} ==> k in f && f[k] == patient[k]
  {
    var tagged := Assign(patient, "service", name);
    var named := Assign(tagged, "patientName", if "nomClient" in patient then Some(patient["nomClient"]) else None);
    Assign(named, "patientId", if "numID_CSR" in patient then Some(patient["numID_CSR"]) else None)
  }

  /** The `add_to_journal` request emitted for one service. */
  function Request(patient: map<string, Value>, service: Value): (r: Journal.Request)
    requires service != Null
    ensures r.journalType == ServiceName(service)
    ensures r.entry == Some(Obj(ServiceEntry(patient, ServiceName(service))))
  {
    var name := ServiceName(service);
    Journal.Request(name, Some(Obj(ServiceEntry(patient, name))))
  }

  /**
   * The requests the loop emits before it ends: one per service, in selection
   * order, up to the first `null` service, where `service.value` throws.
   */
  function Emitted(patient: map<string, Value>, services: seq<Value>): (r: seq<Journal.Request>)
    ensures |r| <= |services|
    ensures |r| < |services| ==> services[|r|] == Null
    ensures forall i :: 0 <= i < |r| ==> services[i] != Null && r[i] == Request(patient, services[i])
  {
    if services == [] || services[0] == Null then []
    else [Request(patient, services[0])] + Emitted(patient, services[1..])
  }

  /**
   * The `for (const service of services)` loop of the `labo` handler: emit
   * one request per service in order; `complete` is false when the loop
   * stopped at a `null` service.
   */
  method FanOut(patient: map<string, Value>, services: seq<Value>)
    returns (complete: bool, emitted: seq<Journal.Request>)
    ensures emitted == Emitted(patient, services)
    ensures complete <==> Null !in services
  {
    emitted := [];
    var i := 0;
    while i < |services|
      invariant 0 <= i <= |services|
      invariant |emitted| == i
      invariant forall j :: 0 <= j < i ==> services[j] != Null && emitted[j] == Request(patient, services[j])
    {
      if services[i] == Null {
        return false, emitted;
      }
      emitted := emitted + [Request(patient, services[i])];
      i := i + 1;
    }
    complete := true;
  }

  /** Without a `null` service every service gets exactly one request. */
  lemma EmittedAll(patient: map<string, Value>, services: seq<Value>)
    requires Null !in services
    ensures |Emitted(patient, services)| == |services|
  {
  }

  /**
   * A request emitted for a service named by one of the eight journal names
   * is one `add_to_journal` accepts, for that journal; any other name is one
   * it rejects.
   */
  lemma EmittedRequestsReachTheirJournal(patient: map<string, Value>, services: seq<Value>, i: nat, k: Journal.Kind)
    requires i < |Emitted(patient, services)|
    ensures var name := ServiceName(services[i]);
      Journal.KindOf(Emitted(patient, services)[i].journalType) == Some(k) <==> name == Some(Str(Journal.Name(k)))
  {
  }
}
