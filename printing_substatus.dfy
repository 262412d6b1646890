/**
 * Printing sub-statuses (class-tabesh-printing-substatus.php): one record per order in the
 * printing stage, with four stage flags (cover printing, cover lamination, text printing,
 * binding), one entry per additional service, and the time and staff member of completion.
 * When every applicable stage and service is done the order is moved to "ready" automatically.
 * The records, the orders' statuses, the history log and the completion notifications that
 * were triggered are fields of `SubstatusStore`.
 */
module PrintingSubstatus {
  import opened Wrappers
  import opened PhpValues
  import opened Orders
  import PrintSubsteps

  datatype Flag = CoverPrintingFlag | CoverLaminationFlag | TextPrintingFlag | BindingFlag

  /** The column name of each flag, the only keys update_printing_substatus accepts. */
  function FlagName(f: Flag): string
  {
    match f
    case CoverPrintingFlag => "cover_printing"
    case CoverLaminationFlag => "cover_lamination"
    case TextPrintingFlag => "text_printing"
    case BindingFlag => "binding"
  }

  /** `in_array($key, $valid_keys, true)`: the flag a key names, if it names one. */
  function ParseFlag(key: string): (r: Option<Flag>)
    ensures r.Some? ==> FlagName(r.value) == key
    ensures r.None? ==> forall f: Flag :: FlagName(f) != key
  {
    if key == "cover_printing" then Some(CoverPrintingFlag)
    else if key == "cover_lamination" then Some(CoverLaminationFlag)
    else if key == "text_printing" then Some(TextPrintingFlag)
    else if key == "binding" then Some(BindingFlag)
    else None
  }

  lemma ParseFlagName(f: Flag)
    ensures ParseFlag(FlagName(f)) == Some(f)
  {
  }

  datatype PrintingDetails = PrintingDetails(cover: string, lamination: string, text: string, binding: string)

  /** "paper <weight> grams", the cover details label. */
  function CoverLabel(weight: string): string
  {
    "کاغذ " + weight + " گرمی"
  }

  /** "paper <type> <weight> grams", the text details label. */
  function TextLabel(paperType: string, weight: string): string
  {
    "کاغذ " + paperType + " " + weight + " گرمی"
  }

  /**
   * extract_printing_details: each detail is filled only when the order specifies that stage;
   * a lamination type of "no lamination" leaves the lamination details empty.
   */
  function ExtractPrintingDetails(o: Order): (d: PrintingDetails)
    ensures d.cover != "" <==> !EmptyString(o.coverPaperWeight)
    ensures d.cover != "" ==> d.cover == CoverLabel(o.coverPaperWeight)
    ensures d.lamination != "" <==> !EmptyString(o.laminationType) && o.laminationType != NoLamination
    ensures d.lamination != "" ==> d.lamination == o.laminationType
    ensures d.text != "" <==> !EmptyString(o.paperType) && !EmptyString(o.paperWeight)
    ensures d.text != "" ==> d.text == TextLabel(o.paperType, o.paperWeight)
    ensures d.binding != "" <==> !EmptyString(o.bindingType)
    ensures d.binding != "" ==> d.binding == o.bindingType
  {
    PrintingDetails(
      if !EmptyString(o.coverPaperWeight) then CoverLabel(o.coverPaperWeight) else "",
      if !EmptyString(o.laminationType) && o.laminationType != NoLamination then o.laminationType else "",
      if !EmptyString(o.paperType) && !EmptyString(o.paperWeight) then TextLabel(o.paperType, o.paperWeight) else "",
      if !EmptyString(o.bindingType) then o.bindingType else "")
  }

  /**
   * The sub-status record and the substeps generator agree on which stages an order has:
   * each detail is filled exactly when the generated substeps contain the matching stage.
   */
  lemma DetailsAgreeWithSubsteps(o: Order)
    ensures var d := ExtractPrintingDetails(o);
      var plan := PrintSubsteps.PlanSubsteps(o);
      && (d.cover != "" <==> PrintSubsteps.HasKey(plan, PrintSubsteps.CoverPrinting))
      && (LaminationApplies(d) <==> PrintSubsteps.HasKey(plan, PrintSubsteps.CoverLamination))
      && (d.text != "" <==> PrintSubsteps.HasKey(plan, PrintSubsteps.ContentPrinting))
      && (d.binding != "" <==> PrintSubsteps.HasKey(plan, PrintSubsteps.Binding))
  {
  }

  datatype Service = Service(service: string, completed: int)

  /** The service list a new record starts with: every extra of a list-valued extras field, not done. */
  function InitialServices(extras: Extras): (r: seq<Service>)
    ensures extras.ExtrasList? ==> |r| == |extras.items|
    ensures extras.ExtrasList? ==> forall i :: 0 <= i < |r| ==> r[i] == Service(extras.items[i], 0)
    ensures extras.ExtrasScalar? ==> r == []
  {
    match extras
    case ExtrasScalar(_) => []
    case ExtrasList(items) => seq(|items|, i requires 0 <= i < |items| => Service(items[i], 0))
  }

  datatype Record = Record(
    id: int,
    orderId: int,
    coverPrinting: int,
    coverLamination: int,
    textPrinting: int,
    binding: int,
    details: PrintingDetails,
    services: seq<Service>,
    completedAt: Option<int>,
    completedBy: Option<int>)

  function FlagValue(r: Record, f: Flag): int
  {
    match f
    case CoverPrintingFlag => r.coverPrinting
    case CoverLaminationFlag => r.coverLamination
    case TextPrintingFlag => r.textPrinting
    case BindingFlag => r.binding
  }

  /** The record with one flag set to `v`. */
  function WithFlag(r: Record, f: Flag, v: int): (r': Record)
    ensures FlagValue(r', f) == v
    ensures forall g :: g != f ==> FlagValue(r', g) == FlagValue(r, g)
    ensures r'.id == r.id && r'.orderId == r.orderId && r'.details == r.details && r'.services == r.services
    ensures r'.completedAt == r.completedAt && r'.completedBy == r.completedBy
  {
    match f
    case CoverPrintingFlag => r.(coverPrinting := v)
    case CoverLaminationFlag => r.(coverLamination := v)
    case TextPrintingFlag => r.(textPrinting := v)
    case BindingFlag => r.(binding := v)
  }

  /** Lamination is a stage of its own only when its details name a real lamination. */
  predicate LaminationApplies(d: PrintingDetails)
  {
    !EmptyString(d.lamination) && d.lamination != NoLamination
  }

  predicate ServiceDone(s: Service)
  {
    s.completed != 0
  }

  /**
   * What check_printing_completion decides: cover printing, text printing and binding are 1,
   * lamination is 1 when it applies, and every additional service is done.
   */
  predicate IsComplete(r: Record)
  {
    && r.coverPrinting == 1 && r.textPrinting == 1 && r.binding == 1
    && (LaminationApplies(r.details) ==> r.coverLamination == 1)
    && forall i :: 0 <= i < |r.services| ==> ServiceDone(r.services[i])
  }

  function CountServicesDone(ss: seq<Service>): (n: nat)
    ensures n <= |ss|
    ensures n == |ss| <==> forall i :: 0 <= i < |ss| ==> ServiceDone(ss[i])
  {
    if ss == [] then 0
    else CountServicesDone(ss[..|ss| - 1]) + (if ServiceDone(ss[|ss| - 1]) then 1 else 0)
  }

  function One(b: bool): nat
  {
    if b then 1 else 0
  }

  /** The stages get_completion_percentage counts: the three main flags, lamination when it applies, each service. */
  function TotalStages(r: Record): nat
  {
    3 + One(LaminationApplies(r.details)) + |r.services|
  }

  function DoneStages(r: Record): (n: nat)
    ensures n <= TotalStages(r)
  {
    One(r.coverPrinting == 1) + One(r.textPrinting == 1) + One(r.binding == 1)
    + One(LaminationApplies(r.details) && r.coverLamination == 1)
    + CountServicesDone(r.services)
  }

  /** The completion percentage of a record, truncated; always between 0 and 100. */
  function CompletionPercent(r: Record): (p: nat)
    ensures p <= 100
  {
    Percent(DoneStages(r), TotalStages(r))
  }

  /** The completion check passes exactly when every counted stage is done. */
  lemma CompleteIffAllStagesDone(r: Record)
    ensures IsComplete(r) <==> DoneStages(r) == TotalStages(r)
  {
    if DoneStages(r) == TotalStages(r) {
      assert CountServicesDone(r.services) == |r.services|;
    }
  }

  /** The percentage reaches 100 exactly when the completion check passes. */
  lemma PercentHundredIffComplete(r: Record)
    ensures CompletionPercent(r) == 100 <==> IsComplete(r)
  {
    if CompletionPercent(r) == 100 {
      assert DoneStages(r) == TotalStages(r);
      assert CountServicesDone(r.services) == |r.services|;
    }
  }

  /** The first position of a service with this exact name, if any. */
  function FindService(ss: seq<Service>, name: string): (r: Option<nat>)
    ensures r.Some? ==> r.value < |ss| && ss[r.value].service == name
    ensures r.Some? ==> forall j :: 0 <= j < r.value ==> ss[j].service != name
    ensures r.None? ==> forall j :: 0 <= j < |ss| ==> ss[j].service != name
  {
    if ss == [] then None
    else if ss[0].service == name then Some(0)
    else match FindService(ss[1..], name)
      case None => None
      case Some(k) => Some(k + 1)
  }

  /**
   * The service list after update_additional_service: the first entry with the name gets the
   * new value; a name not in the list is appended.
   */
  function SetService(ss: seq<Service>, name: string, completed: int): (r: seq<Service>)
    ensures FindService(ss, name).Some? ==>
      var k := FindService(ss, name).value;
      |r| == |ss| && r[k] == Service(name, completed) && forall j :: 0 <= j < |ss| && j != k ==> r[j] == ss[j]
    ensures FindService(ss, name).None? ==> r == ss + [Service(name, completed)]
  {
    match FindService(ss, name)
    case Some(k) => ss[k := Service(name, completed)]
    case None => ss + [Service(name, completed)]
  }

  /** Setting a service twice to the same value is the same as setting it once. */
  lemma SetServiceIdempotent(ss: seq<Service>, name: string, completed: int)
    ensures SetService(SetService(ss, name, completed), name, completed) == SetService(ss, name, completed)
  {
    var once := SetService(ss, name, completed);
    match FindService(ss, name)
    case Some(k) =>
      assert FindService(once, name) == Some(k) by {
        FindServiceSame(ss, once, name, k);
      }
    case None =>
      assert FindService(once, name) == Some(|ss|) by {
        FindServiceSame(ss + [Service(name, completed)], once, name, |ss|);
        FindServiceLast(ss, Service(name, completed));
      }
  }

  lemma FindServiceLast(ss: seq<Service>, s: Service)
    requires FindService(ss, s.service).None?
    ensures FindService(ss + [s], s.service) == Some(|ss|)
  {
    if ss != [] {
      assert (ss + [s])[1..] == ss[1..] + [s];
      FindServiceLast(ss[1..], s);
    }
  }

  lemma FindServiceSame(a: seq<Service>, b: seq<Service>, name: string, k: nat)
    requires |a| == |b| && k < |a| && a[k].service == name && b[k].service == name
    requires forall j :: 0 <= j < k ==> a[j] == b[j] && a[j].service != name
    ensures FindService(b, name) == Some(k)
  {
    if k > 0 {
      FindServiceSame(a[1..], b[1..], name, k - 1);
    }
  }

  /** After setting a service it is in the list with the new value. */
  lemma SetServiceFinds(ss: seq<Service>, name: string, completed: int)
    ensures var r := SetService(ss, name, completed);
      FindService(r, name).Some? && r[FindService(r, name).value] == Service(name, completed)
  {
    var r := SetService(ss, name, completed);
    match FindService(ss, name)
    case Some(k) => FindServiceSame(ss, r, name, k);
    case None => FindServiceLast(ss, Service(name, completed));
  }

  /**
   * Only setting a flag to 1 can complete a record that was not complete: the update runs the
   * auto-completion for the value 1 alone and misses nothing by it.
   */
  lemma OnlyOneCompletesFlag(r: Record, f: Flag, v: int)
    requires !IsComplete(r) && IsComplete(WithFlag(r, f, v))
    ensures v == 1
  {
  }

  /** A record whose service list was just updated is complete only if the value given is non-zero. */
  lemma ServiceUpdateCompletesOnlyWhenDone(r: Record, name: string, completed: int)
    requires IsComplete(r.(services := SetService(r.services, name, completed)))
    ensures completed != 0
  {
    SetServiceFinds(r.services, name, completed);
  }

  /**
   * The status check_and_auto_complete writes, as the code does it: "ready" whatever the order's
   * current status is.
   */
  function StatusAfterAutoComplete(current: string): (s: string)
    ensures s == "ready"
  {
    "ready"
  }

  /** The status an order is left in once printing completes, as the comment and the staff handler intend: only "processing" moves to "ready". */
  function IntendedStatusAfterAutoComplete(current: string): (s: string)
    ensures current == "processing" ==> s == "ready"
    ensures current != "processing" ==> s == current
  {
    if current == "processing" then "ready" else current
  }

  /** As written, a delivered order whose flags are re-ticked goes back to "ready". */
  lemma CompletedOrderRegresses()
    ensures StatusAfterAutoComplete("completed") == "ready" != "completed"
    ensures IntendedStatusAfterAutoComplete("completed") == "completed"
  {
  }

  /** The intended transition never touches an order that is not being processed, and agrees with the code on one that is. */
  lemma IntendedAgreesOnProcessing(current: string)
    ensures current == "processing" ==> IntendedStatusAfterAutoComplete(current) == StatusAfterAutoComplete(current)
    ensures current != "processing" ==> IntendedStatusAfterAutoComplete(current) == current
  {
  }

  datatype LogAction =
    | Initialized
    | Updated(flag: Flag, value: int)
    | ServiceUpdated(name: string, done: int)
    | Completed

  datatype SubstatusLog = SubstatusLog(orderId: int, userId: int, action: LogAction)

  /** The service list update as the code performs it: a search that stops at the first match. */
  method UpdateServiceEntry(ss: seq<Service>, name: string, completed: int) returns (r: seq<Service>)
    ensures r == SetService(ss, name, completed)
  {
    r := ss;
    var found := false;
    var i := 0;
    while i < |r|
      invariant 0 <= i <= |r|
      invariant !found ==> r == ss && forall j :: 0 <= j < i ==> ss[j].service != name
      invariant found ==> r == SetService(ss, name, completed)
      decreases |r| - i, !found
    {
      if r[i].service == name {
        assert FindService(ss, name) == Some(i) by {
          FindServiceSame(ss, ss, name, i);
        }
        r := r[i := Service(name, completed)];
        found := true;
        break;
      }
      i := i + 1;
    }
    if !found {
      r := r + [Service(name, completed)];
    }
  }

  class SubstatusStore {
    var records: map<int, Record>
    var nextId: int
    var orders: map<int, Order>
    var logs: seq<SubstatusLog>
    var notified: seq<int>

    ghost predicate Valid()
      reads this
    {
      && nextId >= 1
      && forall k :: k in records ==> records[k].orderId == k && 1 <= records[k].id < nextId
    }

    constructor(orders: map<int, Order>)
      ensures Valid()
      ensures records == map[] && this.orders == orders && logs == [] && notified == [] && nextId == 1
    {
      records := map[];
      nextId := 1;
      this.orders := orders;
      logs := [];
      notified := [];
    }

    /**
     * initialize_printing_substatus: None for order id 0 or an unknown order; the existing
     * record's id when there is one; otherwise a new record with all flags at 0, the details
     * extracted from the order and one pending entry per extra.
     */
    method InitializePrintingSubstatus(orderId: int, currentUser: int) returns (r: Option<int>)
      requires Valid()
      modifies this
      ensures Valid()
      ensures orders == old(orders) && notified == old(notified)
      ensures orderId == 0 ==> r.None? && records == old(records) && logs == old(logs) && nextId == old(nextId)
      ensures orderId != 0 && orderId in old(records) ==>
                r == Some(old(records)[orderId].id) && records == old(records) && logs == old(logs) && nextId == old(nextId)
      ensures orderId != 0 && orderId !in old(records) && orderId !in old(orders) ==>
                r.None? && records == old(records) && logs == old(logs) && nextId == old(nextId)
      ensures orderId != 0 && orderId !in old(records) && orderId in old(orders) ==>
                && r == Some(old(nextId))
                && records == old(records)[orderId := Record(old(nextId), orderId, 0, 0, 0, 0,
                     ExtractPrintingDetails(old(orders)[orderId]), InitialServices(old(orders)[orderId].extras), None, None)]
                && nextId == old(nextId) + 1
                && logs == old(logs) + [SubstatusLog(orderId, currentUser, Initialized)]
    {
      if orderId == 0 {
        return None;
      }
      if orderId in records {
        return Some(records[orderId].id);
      }
      if orderId !in orders {
        return None;
      }
      var order := orders[orderId];
      var record := Record(nextId, orderId, 0, 0, 0, 0, ExtractPrintingDetails(order), InitialServices(order.extras), None, None);
      records := records[orderId := record];
      r := Some(nextId);
      nextId := nextId + 1;
      logs := logs + [SubstatusLog(orderId, currentUser, Initialized)];
    }

    /** check_printing_completion: false without a record; otherwise the completion check, stopping at the first pending service. */
    method CheckPrintingCompletion(orderId: int) returns (done: bool)
      ensures done <==> orderId in records && IsComplete(records[orderId])
    {
      if orderId !in records {
        return false;
      }
      var r := records[orderId];
      var mainCompleted := r.coverPrinting == 1 && r.textPrinting == 1 && r.binding == 1;
      if LaminationApplies(r.details) {
        mainCompleted := mainCompleted && r.coverLamination == 1;
      }
      var servicesCompleted := true;
      var i := 0;
      while i < |r.services|
        invariant 0 <= i <= |r.services|
        invariant servicesCompleted <==> forall j :: 0 <= j < i ==> ServiceDone(r.services[j])
      {
        if r.services[i].completed == 0 {
          servicesCompleted := false;
          break;
        }
        i := i + 1;
      }
      done := mainCompleted && servicesCompleted;
    }

    /** get_completion_percentage: 0 without a record, otherwise the share of done stages. */
    method GetCompletionPercentage(orderId: int) returns (p: nat)
      ensures orderId !in records ==> p == 0
      ensures orderId in records ==> p == CompletionPercent(records[orderId])
      ensures p <= 100
    {
      if orderId !in records {
        return 0;
      }
      var r := records[orderId];
      var completedCount: nat := 0;
      var totalCount: nat := 0;
      var mainStatuses := [r.coverPrinting, r.textPrinting, r.binding];
      var m := 0;
      while m < 3
        invariant 0 <= m <= 3
        invariant totalCount == m
        invariant completedCount == (if m > 0 then One(r.coverPrinting == 1) else 0)
                                  + (if m > 1 then One(r.textPrinting == 1) else 0)
                                  + (if m > 2 then One(r.binding == 1) else 0)
      {
        totalCount := totalCount + 1;
        if mainStatuses[m] == 1 {
          completedCount := completedCount + 1;
        }
        m := m + 1;
      }
      if LaminationApplies(r.details) {
        totalCount := totalCount + 1;
        if r.coverLamination == 1 {
          completedCount := completedCount + 1;
        }
      }
      assert totalCount + |r.services| == TotalStages(r);
      var servicesDone := CountDoneServices(r.services);
      assert completedCount + servicesDone == DoneStages(r);
      totalCount := totalCount + |r.services|;
      completedCount := completedCount + servicesDone;
      p := Percent(completedCount, totalCount);
    }

    /** The services part of get_completion_percentage: one stage per service, done when marked completed. */
    static method CountDoneServices(services: seq<Service>) returns (done: nat)
      ensures done == CountServicesDone(services)
    {
      done := 0;
      var i := 0;
      while i < |services|
        invariant 0 <= i <= |services|
        invariant done == CountServicesDone(services[..i])
      {
        assert services[..i + 1][..i] == services[..i];
        if services[i].completed != 0 {
          done := done + 1;
        }
        i := i + 1;
      }
      assert services[..i] == services;
    }

    /**
     * check_and_auto_complete: when the record is complete, stamps completion, moves a
     * "processing" order to "ready" (the corrected rule; the code as written sets "ready" whatever
     * the status, see StatusAfterAutoComplete), logs it and triggers the customer notification.
     */
    method CheckAndAutoComplete(orderId: int, currentUser: int, now: int) returns (done: bool)
      requires Valid()
      modifies this
      ensures Valid()
      ensures done <==> orderId in old(records) && IsComplete(old(records)[orderId])
      ensures nextId == old(nextId)
      ensures !done ==> records == old(records) && orders == old(orders) && logs == old(logs) && notified == old(notified)
      ensures done ==>
        && records == old(records)[orderId := old(records)[orderId].(completedAt := Some(now), completedBy := Some(currentUser))]
        && orders == (if orderId in old(orders)
                      then old(orders)[orderId := old(orders)[orderId].(status := IntendedStatusAfterAutoComplete(old(orders)[orderId].status))]
                      else old(orders))
        && logs == old(logs) + [SubstatusLog(orderId, currentUser, Completed)]
        && notified == old(notified) + [orderId]
    {
      done := CheckPrintingCompletion(orderId);
      if !done {
        return;
      }
      records := records[orderId := records[orderId].(completedAt := Some(now), completedBy := Some(currentUser))];
      if orderId in orders {
        orders := orders[orderId := orders[orderId].(status := IntendedStatusAfterAutoComplete(orders[orderId].status))];
      }
      logs := logs + [SubstatusLog(orderId, currentUser, Completed)];
      notified := notified + [orderId];
    }

    /**
     * The record update_printing_substatus works on: the existing one, or the one
     * initialize_printing_substatus creates for a known order.
     */
    function StartRecord(orderId: int): Option<Record>
      reads this
    {
      if orderId in records then Some(records[orderId])
      else if orderId != 0 && orderId in orders then
        Some(Record(nextId, orderId, 0, 0, 0, 0, ExtractPrintingDetails(orders[orderId]), InitialServices(orders[orderId].extras), None, None))
      else None
    }

    /**
     * The writing part of update_printing_substatus: the record created when there is none,
     * the flag set on it and the change logged (also when no record could be created).
     */
    method SetFlag(orderId: int, flag: Flag, value: int, currentUser: int)
      requires Valid() && orderId != 0
      modifies this
      ensures Valid()
      ensures orders == old(orders) && notified == old(notified)
      ensures old(StartRecord(orderId)).None? ==> records == old(records) && nextId == old(nextId)
      ensures old(StartRecord(orderId)).Some? ==>
                && records == old(records)[orderId := WithFlag(old(StartRecord(orderId)).value, flag, value)]
                && nextId == old(nextId) + (if orderId !in old(records) then 1 else 0)
      ensures logs == old(logs) + (if orderId !in old(records) && old(StartRecord(orderId)).Some? then [SubstatusLog(orderId, currentUser, Initialized)] else [])
                      + [SubstatusLog(orderId, currentUser, Updated(flag, value))]
    {
      if orderId !in records {
        var _ := InitializePrintingSubstatus(orderId, currentUser);
      }
      if orderId in records {
        records := records[orderId := WithFlag(records[orderId], flag, value)];
      }
      logs := logs + [SubstatusLog(orderId, currentUser, Updated(flag, value))];
    }

    /**
     * update_printing_substatus: false for order id 0, an empty key or a key that is not one of
     * the four flags. Otherwise creates the record if needed, sets the flag, logs the change
     * and, when the value is 1 and the record is then complete, stamps the completion, moves the
     * order on and notifies the customer. It reports success even when the order does not exist
     * and no record could be created, since the update then matches no row.
     */
    method UpdatePrintingSubstatus(orderId: int, key: string, value: int, currentUser: int, now: int)
      returns (ok: bool)
      requires Valid()
      modifies this
      ensures Valid()
      ensures ok <==> orderId != 0 && !EmptyString(key) && ParseFlag(key).Some?
      ensures !ok ==> records == old(records) && orders == old(orders) && logs == old(logs)
                      && notified == old(notified) && nextId == old(nextId)
      ensures ok && old(StartRecord(orderId)).None? ==>
                && records == old(records) && orders == old(orders) && notified == old(notified) && nextId == old(nextId)
                && logs == old(logs) + [SubstatusLog(orderId, currentUser, Updated(ParseFlag(key).value, value))]
      ensures ok && old(StartRecord(orderId)).Some? ==>
                var rec := WithFlag(old(StartRecord(orderId)).value, ParseFlag(key).value, value);
                var created := orderId !in old(records);
                var completes := value == 1 && IsComplete(rec);
                && records == old(records)[orderId := if completes then rec.(completedAt := Some(now), completedBy := Some(currentUser)) else rec]
                && orders == (if completes && orderId in old(orders)
                              then old(orders)[orderId := old(orders)[orderId].(status := IntendedStatusAfterAutoComplete(old(orders)[orderId].status))]
                              else old(orders))
                && logs == old(logs) + (if created then [SubstatusLog(orderId, currentUser, Initialized)] else [])
                           + [SubstatusLog(orderId, currentUser, Updated(ParseFlag(key).value, value))]
                           + (if completes then [SubstatusLog(orderId, currentUser, Completed)] else [])
                && notified == old(notified) + (if completes then [orderId] else [])
                && nextId == old(nextId) + (if created then 1 else 0)
    {
      if orderId == 0 || EmptyString(key) {
        return false;
      }
      var flag := ParseFlag(key);
      if flag.None? {
        return false;
      }
      SetFlag(orderId, flag.value, value, currentUser);
      if value == 1 {
        var _ := CheckAndAutoComplete(orderId, currentUser, now);
      }
      return true;
    }

    /**
     * update_additional_service: false for order id 0, an empty name or a missing record;
     * otherwise sets the service (appending it when new), logs it and, when the value is 1 and
     * the record is then complete, stamps the completion, moves the order on and notifies the
     * customer.
     */
    method UpdateAdditionalService(orderId: int, name: string, completed: int, currentUser: int, now: int)
      returns (ok: bool)
      requires Valid()
      modifies this
      ensures Valid()
      ensures ok <==> orderId != 0 && !EmptyString(name) && orderId in old(records)
      ensures !ok ==> records == old(records) && orders == old(orders) && logs == old(logs)
                      && notified == old(notified) && nextId == old(nextId)
      ensures ok ==>
                var rec := old(records)[orderId].(services := SetService(old(records)[orderId].services, name, completed));
                var completes := completed == 1 && IsComplete(rec);
                && records == old(records)[orderId := if completes then rec.(completedAt := Some(now), completedBy := Some(currentUser)) else rec]
                && orders == (if completes && orderId in old(orders)
                              then old(orders)[orderId := old(orders)[orderId].(status := IntendedStatusAfterAutoComplete(old(orders)[orderId].status))]
                              else old(orders))
                && logs == old(logs) + [SubstatusLog(orderId, currentUser, ServiceUpdated(name, completed))]
                           + (if completes then [SubstatusLog(orderId, currentUser, Completed)] else [])
                && notified == old(notified) + (if completes then [orderId] else [])
                && nextId == old(nextId)
    {
      if orderId == 0 || EmptyString(name) {
        return false;
      }
      if orderId !in records {
        return false;
      }
      var services := UpdateServiceEntry(records[orderId].services, name, completed);
      records := records[orderId := records[orderId].(services := services)];
      logs := logs + [SubstatusLog(orderId, currentUser, ServiceUpdated(name, completed))];
      if completed == 1 {
        var _ := CheckAndAutoComplete(orderId, currentUser, now);
      }
      return true;
    }
  }
}
