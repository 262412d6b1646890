/**
 * The administrator's five-step order wizard (admin-order-form.js): a form state filled in by
 * the input handlers, a current step moved by Next and Previous under per-step validation, the
 * new-customer check, a reset to the defaults and the price formatting of the price panel.
 *
 * JavaScript values: `null` and `NaN` are `None`; a number is truthy unless it is 0, a string
 * unless it is empty. The calculated price object is represented by its total and is always
 * truthy once present.
 */
module AdminWizard {
  import opened Wrappers
  import opened PhpValues
  import opened JsValues

  const TotalSteps: int := 5

  datatype CustomerData = CustomerData(name: string, mobile: string, email: string)

  datatype FormState = FormState(
    customerId: Option<int>,
    customerType: string,
    newCustomerData: Option<CustomerData>,
    bookTitle: string,
    bookSize: string,
    paperType: string,
    paperWeight: string,
    printType: string,
    pageCount: Option<int>,
    quantity: Option<int>,
    bindingType: string,
    coverWeight: string,
    extras: seq<string>,
    notes: string,
    sendSms: bool,
    calculatedPrice: Option<int>)

  /** The state the form starts in and returns to after a reset. */
  function InitialState(): (s: FormState)
    ensures s.customerId.None? && s.customerType == "existing" && s.newCustomerData.None?
    ensures s.pageCount == Some(100) && s.quantity == Some(10)
    ensures s.bookTitle == "" && s.bookSize == "" && s.paperType == "" && s.paperWeight == "" && s.printType == ""
    ensures s.bindingType == "" && s.coverWeight == "" && s.notes == ""
    ensures s.extras == [] && !s.sendSms && s.calculatedPrice.None?
  {
    FormState(None, "existing", None, "", "", "", "", "", Some(100), Some(10), "", "", [], "", false, None)
  }

  /** `!x` for a number that may be null or NaN. */
  predicate Falsy(n: Option<int>)
  {
    n.None? || n.value == 0
  }

  datatype Field =
    | Customer | BookTitle | BookSize | PaperType | PaperWeight | PrintType
    | PageCount | Quantity | BindingType | CoverWeight | CalculatedPrice

  /** The fields each step requires, in the order the validation checks them. */
  function RequiredFields(step: int): (fs: seq<Field>)
    ensures 1 <= step <= TotalSteps ==> |fs| >= 1
    ensures !(1 <= step <= TotalSteps) ==> fs == []
  {
    if step == 1 then [Customer]
    else if step == 2 then [BookTitle, BookSize]
    else if step == 3 then [PaperType, PaperWeight, PrintType, PageCount, Quantity]
    else if step == 4 then [BindingType, CoverWeight]
    else if step == 5 then [CalculatedPrice]
    else []
  }

  /** A required field that is not filled in; counts must be positive numbers. */
  predicate Missing(f: Field, s: FormState)
  {
    match f
    case Customer => Falsy(s.customerId)
    case BookTitle => s.bookTitle == ""
    case BookSize => s.bookSize == ""
    case PaperType => s.paperType == ""
    case PaperWeight => s.paperWeight == ""
    case PrintType => s.printType == ""
    case PageCount => Falsy(s.pageCount) || s.pageCount.value <= 0
    case Quantity => Falsy(s.quantity) || s.quantity.value <= 0
    case BindingType => s.bindingType == ""
    case CoverWeight => s.coverWeight == ""
    case CalculatedPrice => s.calculatedPrice.None?
  }

  datatype WizardError =
    | SelectCustomer | CreateCustomerFirst | EnterBookTitle | SelectBookSize
    | SelectPaperType | SelectPaperWeight | SelectPrintType | EnterPageCount | EnterQuantity
    | SelectBindingType | SelectCoverWeight | CalculatePriceFirst

  /** The message shown for a missing field; the customer message depends on the customer type. */
  function ErrorFor(f: Field, s: FormState): WizardError
  {
    match f
    case Customer => if s.customerType == "existing" then SelectCustomer else CreateCustomerFirst
    case BookTitle => EnterBookTitle
    case BookSize => SelectBookSize
    case PaperType => SelectPaperType
    case PaperWeight => SelectPaperWeight
    case PrintType => SelectPrintType
    case PageCount => EnterPageCount
    case Quantity => EnterQuantity
    case BindingType => SelectBindingType
    case CoverWeight => SelectCoverWeight
    case CalculatedPrice => CalculatePriceFirst
  }

  /** The position of the first field in `fs` that is missing, if any. */
  function FirstMissing(fs: seq<Field>, s: FormState): (r: Option<nat>)
    ensures r.None? <==> forall i :: 0 <= i < |fs| ==> !Missing(fs[i], s)
    ensures r.Some? ==> r.value < |fs| && Missing(fs[r.value], s)
    ensures r.Some? ==> forall j :: 0 <= j < r.value ==> !Missing(fs[j], s)
  {
    if fs == [] then None
    else if Missing(fs[0], s) then Some(0)
    else match FirstMissing(fs[1..], s)
      case None => None
      case Some(k) => Some(k + 1)
  }

  /**
   * validateStep: `None` when the step may be left, otherwise the error for the first missing
   * field in the step's fixed order. Steps outside 1..5 always pass.
   */
  function ValidateStep(step: int, s: FormState): (r: Option<WizardError>)
    ensures !(1 <= step <= TotalSteps) ==> r.None?
  {
    if step == 1 then
      if Falsy(s.customerId) then Some(ErrorFor(Customer, s)) else None
    else if step == 2 then
      if s.bookTitle == "" then Some(EnterBookTitle)
      else if s.bookSize == "" then Some(SelectBookSize)
      else None
    else if step == 3 then
      if s.paperType == "" then Some(SelectPaperType)
      else if s.paperWeight == "" then Some(SelectPaperWeight)
      else if s.printType == "" then Some(SelectPrintType)
      else if Falsy(s.pageCount) || s.pageCount.value <= 0 then Some(EnterPageCount)
      else if Falsy(s.quantity) || s.quantity.value <= 0 then Some(EnterQuantity)
      else None
    else if step == 4 then
      if s.bindingType == "" then Some(SelectBindingType)
      else if s.coverWeight == "" then Some(SelectCoverWeight)
      else None
    else if step == 5 then
      if s.calculatedPrice.None? then Some(CalculatePriceFirst) else None
    else None
  }

  /**
   * The validation chain reports exactly the first missing field of the step's list: a step
   * passes iff none of its fields is missing, and fails with that field's message otherwise.
   */
  lemma ValidateStepReportsFirstMissing(step: int, s: FormState)
    ensures var fs := RequiredFields(step);
      ValidateStep(step, s) == (match FirstMissing(fs, s)
                                case None => None
                                case Some(k) => Some(ErrorFor(fs[k], s)))
    ensures ValidateStep(step, s).None? <==>
              forall i :: 0 <= i < |RequiredFields(step)| ==> !Missing(RequiredFields(step)[i], s)
  {
    var fs := RequiredFields(step);
    var empty: seq<Field> := [];
    if step == 1 {
      ReportedCons(Customer, empty, s);
      assert fs == [Customer] + empty;
    } else if step == 2 {
      ReportedCons(BookTitle, [BookSize], s);
      ReportedCons(BookSize, empty, s);
      assert fs == [BookTitle] + [BookSize] && [BookSize] == [BookSize] + empty;
    } else if step == 3 {
      StepThreeReportsFirstMissing(s);
    } else if step == 4 {
      ReportedCons(BindingType, [CoverWeight], s);
      ReportedCons(CoverWeight, empty, s);
      assert fs == [BindingType] + [CoverWeight] && [CoverWeight] == [CoverWeight] + empty;
    } else if step == 5 {
      ReportedCons(CalculatedPrice, empty, s);
      assert fs == [CalculatedPrice] + empty;
    }
  }

  /** The error for the first missing field of `fs`, if any. */
  function Reported(fs: seq<Field>, s: FormState): Option<WizardError>
  {
    match FirstMissing(fs, s)
    case None => None
    case Some(k) => Some(ErrorFor(fs[k], s))
  }

  /** The first field is checked first; only when it is filled in does the rest decide. */
  lemma ReportedCons(f: Field, rest: seq<Field>, s: FormState)
    ensures Reported([f] + rest, s) == if Missing(f, s) then Some(ErrorFor(f, s)) else Reported(rest, s)
  {
    assert ([f] + rest)[0] == f && ([f] + rest)[1..] == rest;
  }

  lemma StepThreeReportsFirstMissing(s: FormState)
    ensures ValidateStep(3, s) == Reported(RequiredFields(3), s)
  {
    var empty: seq<Field> := [];
    var f4 := [Quantity] + empty;
    var f3 := [PageCount] + f4;
    var f2 := [PrintType] + f3;
    var f1 := [PaperWeight] + f2;
    assert RequiredFields(3) == [PaperType] + f1;
    ReportedCons(PaperType, f1, s);
    ReportedCons(PaperWeight, f2, s);
    ReportedCons(PrintType, f3, s);
    ReportedCons(PageCount, f4, s);
    ReportedCons(Quantity, empty, s);
  }

  /** Step 3 turns away a missing, zero or negative page count or quantity. */
  lemma StepThreeRejectsNonPositiveCounts(s: FormState)
    requires s.paperType != "" && s.paperWeight != "" && s.printType != ""
    requires s.pageCount.None? || s.pageCount.value <= 0
    ensures ValidateStep(3, s) == Some(EnterPageCount)
  {
  }

  /** A freshly reset form cannot leave step 1, and cannot be submitted. */
  lemma InitialStateBlocked()
    ensures ValidateStep(1, InitialState()) == Some(SelectCustomer)
    ensures ValidateStep(5, InitialState()) == Some(CalculatePriceFirst)
  {
  }

  /** What updateProgress and updateNavigation show for a step. */
  datatype StepView = StepView(progressPercent: int, prevShown: bool, nextShown: bool, submitShown: bool)

  function ViewOf(step: int): (v: StepView)
    requires 1 <= step <= TotalSteps
    ensures v.progressPercent == step * 100 / TotalSteps && 20 <= v.progressPercent <= 100
    ensures v.prevShown <==> step != 1
    ensures v.nextShown != v.submitShown
    ensures v.submitShown <==> step == TotalSteps
  {
    StepView(step * 20, step != 1, step != TotalSteps, step == TotalSteps)
  }

  datatype Indicator = Done | Active | Upcoming

  /** The class updateProgress gives the indicator of step `n` while `step` is shown. */
  function IndicatorOf(n: int, step: int): (c: Indicator)
    ensures c == Done <==> n < step
    ensures c == Active <==> n == step
  {
    if n < step then Done else if n == step then Active else Upcoming
  }

  /** Exactly one indicator is active, and those before it are marked done. */
  lemma OneActiveIndicator(step: int, n: int, m: int)
    requires IndicatorOf(n, step) == Active && IndicatorOf(m, step) == Active
    ensures n == m
    ensures forall k :: k < n ==> IndicatorOf(k, step) == Done
  {
  }

  /** A mobile number as the new-customer form accepts it: "09" followed by exactly nine digits. */
  predicate IsMobile(m: string)
  {
    |m| == 11 && m[0] == '0' && m[1] == '9' && forall i :: 2 <= i < 11 ==> IsDigit(m[i])
  }

  datatype CustomerError = NameAndMobileRequired | InvalidMobile

  /** createCustomer's checks on the trimmed inputs, before any request is made. */
  function CheckNewCustomer(name: string, mobile: string): (r: Option<CustomerError>)
    ensures r.None? <==> JsTrim(name) != "" && IsMobile(JsTrim(mobile))
    ensures r == Some(NameAndMobileRequired) <==> JsTrim(name) == "" || JsTrim(mobile) == ""
  {
    var n, m := JsTrim(name), JsTrim(mobile);
    if n == "" || m == "" then Some(NameAndMobileRequired)
    else if !IsMobile(m) then Some(InvalidMobile)
    else None
  }

  /**
   * The customer-type toggle: records the type and always forgets the selected customer; the
   * "existing" side also forgets the new customer's data.
   */
  function ToggleCustomerType(s: FormState, kind: string): (s': FormState)
    ensures s'.customerId.None? && s'.customerType == kind
    ensures kind == "existing" ==> s'.newCustomerData.None?
    ensures kind != "existing" ==> s'.newCustomerData == s.newCustomerData
    ensures s' == s.(customerId := s'.customerId, customerType := kind, newCustomerData := s'.newCustomerData)
  {
    if kind == "existing" then s.(customerType := kind, customerId := None, newCustomerData := None)
    else s.(customerType := kind, customerId := None)
  }

  /**
   * The success callback of createCustomer as written: it stores the new id and data, then
   * re-checks the "existing" radio and triggers its change handler, which clears both again.
   */
  function CustomerCreatedAsWritten(s: FormState, userId: int, data: CustomerData): (s': FormState)
    ensures userId != 0 ==> s'.customerId.None? && s'.newCustomerData.None? && s'.customerType == "existing"
    ensures userId == 0 ==> s' == s
  {
    if userId == 0 then s
    else ToggleCustomerType(s.(customerId := Some(userId), newCustomerData := Some(data)), "existing")
  }

  /** The evident intent: show the new customer as the selected existing customer. */
  function CustomerCreated(s: FormState, userId: int, data: CustomerData): (s': FormState)
    ensures userId != 0 ==> s'.customerId == Some(userId) && s'.newCustomerData == Some(data) && s'.customerType == "existing"
    ensures userId == 0 ==> s' == s
  {
    if userId == 0 then s
    else s.(customerType := "existing", customerId := Some(userId), newCustomerData := Some(data))
  }

  /** As written, a customer just created cannot be taken past step 1; the corrected callback lets it through. */
  lemma CreatedCustomerLost(s: FormState, userId: int, data: CustomerData)
    requires userId != 0
    ensures ValidateStep(1, CustomerCreatedAsWritten(s, userId, data)) == Some(SelectCustomer)
    ensures ValidateStep(1, CustomerCreated(s, userId, data)).None?
  {
  }

  /** The thousands-grouped form of a run of digits: a comma before every third digit from the right. */
  function GroupDigits(ds: string): (r: string)
    requires forall i :: 0 <= i < |ds| ==> IsDigit(ds[i])
    ensures |ds| <= 3 ==> r == ds
    ensures |ds| > 3 ==> |r| >= 4 && r[|r| - 4] == ',' && r[|r| - 3..] == ds[|ds| - 3..]
  {
    if |ds| <= 3 then ds else GroupDigits(ds[..|ds| - 3]) + "," + ds[|ds| - 3..]
  }

  predicate AllDigits(s: string)
  {
    forall i :: 0 <= i < |s| ==> IsDigit(s[i])
  }

  /** The mobile pattern /^09[0-9]{9}$/: the prefix "09", then nine digits and nothing else. */
  lemma IsMobileShape(m: string)
    ensures IsMobile(m) <==> |m| == 11 && m[..2] == "09" && AllDigits(m[2..])
  {
    if |m| == 11 && m[..2] == "09" && AllDigits(m[2..]) {
      assert m[0] == m[..2][0] && m[1] == m[..2][1];
      forall i | 2 <= i < 11 ensures IsDigit(m[i]) {
        assert m[i] == m[2..][i - 2];
      }
    }
  }

  /**
   * A thousands-grouped number: a first group of one to three digits, then groups of exactly
   * three digits, each behind a comma.
   */
  predicate Grouped(r: string)
  {
    if |r| <= 3 then r != [] && AllDigits(r)
    else |r| >= 5 && r[|r| - 4] == ',' && AllDigits(r[|r| - 3..]) && Grouped(r[..|r| - 4])
  }

  /**
   * The grouped form of a non-empty run of digits is well grouped (UngroupDigits shows the digits are those of `ds`, in order).
   */
  lemma {:induction false} GroupDigitsShape(ds: string)
    requires ds != [] && AllDigits(ds)
    ensures Grouped(GroupDigits(ds))
  {
    if |ds| > 3 {
      var hi, lo := ds[..|ds| - 3], ds[|ds| - 3..];
      assert forall i :: 0 <= i < |lo| ==> lo[i] == ds[|ds| - 3 + i];
      assert forall i :: 0 <= i < |hi| ==> hi[i] == ds[i];
      GroupDigitsShape(hi);
      assert GroupDigits(ds) == GroupDigits(hi) + "," + lo;
      GroupedAppend(GroupDigits(hi), lo);
    }
  }

  /** A grouped number followed by a comma and three digits is grouped. */
  lemma GroupedAppend(g: string, lo: string)
    requires Grouped(g) && |lo| == 3 && AllDigits(lo)
    ensures Grouped(g + "," + lo)
  {
    var r := g + "," + lo;
    assert |g| >= 1;
    assert r[..|r| - 4] == g;
    assert r[|r| - 3..] == lo;
    assert r[|r| - 4] == ',';
  }

  /** A formatted amount is a grouped number, behind a minus sign when it is negative. */
  lemma FormatPriceShape(n: int)
    ensures n < 0 ==> FormatPrice(n)[0] == '-' && Grouped(FormatPrice(n)[1..])
    ensures n >= 0 ==> Grouped(FormatPrice(n))
  {
    var ds := NatToString(if n < 0 then -n else n);
    GroupDigitsShape(ds);
    if n < 0 {
      assert FormatPrice(n)[1..] == GroupDigits(ds);
    }
  }

  /** formatPrice on an integer amount: its decimal digits, grouped by thousands. */
  function FormatPrice(n: int): (r: string)
    ensures |r| >= 1
  {
    if n < 0 then "-" + GroupDigits(NatToString(-n)) else GroupDigits(NatToString(n))
  }

  function RemoveCommas(s: string): (r: string)
    ensures |r| <= |s|
    ensures forall i :: 0 <= i < |r| ==> r[i] != ','
  {
    if s == [] then []
    else (if s[0] == ',' then [] else [s[0]]) + RemoveCommas(s[1..])
  }

  lemma {:induction false} RemoveCommasAppend(a: string, b: string)
    ensures RemoveCommas(a + b) == RemoveCommas(a) + RemoveCommas(b)
  {
    if a == [] {
      assert a + b == b;
    } else {
      assert (a + b)[1..] == a[1..] + b;
      RemoveCommasAppend(a[1..], b);
    }
  }

  lemma {:induction false} RemoveCommasOfDigits(ds: string)
    requires forall i :: 0 <= i < |ds| ==> IsDigit(ds[i])
    ensures RemoveCommas(ds) == ds
  {
    if ds != [] {
      RemoveCommasOfDigits(ds[1..]);
    }
  }

  /** Deleting the separators gives back the digits. */
  lemma {:induction false} UngroupDigits(ds: string)
    requires forall i :: 0 <= i < |ds| ==> IsDigit(ds[i])
    ensures RemoveCommas(GroupDigits(ds)) == ds
  {
    if |ds| <= 3 {
      RemoveCommasOfDigits(ds);
    } else {
      var hi, lo := ds[..|ds| - 3], ds[|ds| - 3..];
      assert hi + lo == ds;
      assert forall i :: 0 <= i < |hi| ==> IsDigit(hi[i]) by {
        assert forall i :: 0 <= i < |hi| ==> hi[i] == ds[i];
      }
      assert forall i :: 0 <= i < |lo| ==> IsDigit(lo[i]) by {
        assert forall i :: 0 <= i < |lo| ==> lo[i] == ds[|ds| - 3 + i];
      }
      var g := GroupDigits(hi);
      assert GroupDigits(ds) == g + "," + lo;
      assert RemoveCommas(g) == hi by {
        UngroupDigits(hi);
      }
      assert RemoveCommas(lo) == lo by {
        RemoveCommasOfDigits(lo);
      }
      RemoveCommasJoin(g, lo);
    }
  }

  /** The separator between two parts is dropped and the parts are kept. */
  lemma RemoveCommasJoin(a: string, b: string)
    ensures RemoveCommas(a + "," + b) == RemoveCommas(a) + RemoveCommas(b)
  {
    RemoveCommasAppend(a, ",");
    assert RemoveCommas(",") == [];
    RemoveCommasAppend(a + ",", b);
  }

  /**
   * A formatted price read back without its separators is the amount it shows, brought into
   * PHP's integer range.
   */
  lemma FormatPriceRoundTrip(n: int)
    ensures RemoveCommas(FormatPrice(n)) == IntToString(n)
    ensures IntVal(RemoveCommas(FormatPrice(n))) == Saturate(n)
    ensures PhpIntMin <= n <= PhpIntMax ==> IntVal(RemoveCommas(FormatPrice(n))) == n
  {
    if n < 0 {
      UngroupDigits(NatToString(-n));
      RemoveCommasAppend("-", GroupDigits(NatToString(-n)));
    } else {
      UngroupDigits(NatToString(n));
    }
    IntValOfIntToString(n);
  }

  /** The wizard: the mutable form state, the step shown and what the step shows. */
  class Wizard {
    var currentStep: int
    var state: FormState
    var view: StepView

    ghost predicate Valid()
      reads this
    {
      1 <= currentStep <= TotalSteps && view == ViewOf(currentStep)
    }

    /** The wizard opens on step 1 with the default form state. */
    constructor()
      ensures Valid() && currentStep == 1 && state == InitialState()
    {
      currentStep := 1;
      state := InitialState();
      view := ViewOf(1);
    }

    /** showStep: shows `step` and makes it current. */
    method ShowStep(step: int)
      requires 1 <= step <= TotalSteps
      modifies this
      ensures Valid() && currentStep == step && state == old(state)
    {
      view := ViewOf(step);
      currentStep := step;
    }

    /** handleNext: moves forward one step only when the current step validates and is not the last. */
    method HandleNext() returns (error: Option<WizardError>)
      requires Valid()
      modifies this
      ensures Valid() && state == old(state)
      ensures error == ValidateStep(old(currentStep), old(state))
      ensures currentStep == (if error.None? && old(currentStep) < TotalSteps then old(currentStep) + 1 else old(currentStep))
    {
      error := ValidateStep(currentStep, state);
      if error.Some? {
        return;
      }
      if currentStep < TotalSteps {
        ShowStep(currentStep + 1);
      }
    }

    /** handlePrevious: moves back one step unless on the first. */
    method HandlePrevious()
      requires Valid()
      modifies this
      ensures Valid() && state == old(state)
      ensures currentStep == (if old(currentStep) > 1 then old(currentStep) - 1 else old(currentStep))
    {
      if currentStep > 1 {
        ShowStep(currentStep - 1);
      }
    }

    /** The customer-type radio's change handler. */
    method SetCustomerType(kind: string)
      modifies this
      ensures state == ToggleCustomerType(old(state), kind)
      ensures currentStep == old(currentStep) && view == old(view)
    {
      state := ToggleCustomerType(state, kind);
    }

    /** Picking a search result selects that customer; its remove button clears the selection. */
    method SelectCustomer(userId: Option<int>)
      modifies this
      ensures state == old(state).(customerId := userId)
      ensures currentStep == old(currentStep) && view == old(view)
    {
      state := state.(customerId := userId);
    }

    /**
     * The success callback of the create-customer request, corrected: the new customer stays
     * selected (CustomerCreatedAsWritten is the callback as the code runs it).
     */
    method OnCustomerCreated(userId: int, data: CustomerData)
      modifies this
      ensures state == CustomerCreated(old(state), userId, data)
      ensures userId != 0 ==> ValidateStep(1, state).None?
      ensures currentStep == old(currentStep) && view == old(view)
    {
      if userId != 0 {
        state := state.(customerType := "existing", customerId := Some(userId), newCustomerData := Some(data));
      }
    }

    /** The page count and quantity inputs; `None` stands for the NaN parseInt gives on bad input. */
    method SetCounts(pageCount: Option<int>, quantity: Option<int>)
      modifies this
      ensures state == old(state).(pageCount := pageCount, quantity := quantity)
      ensures currentStep == old(currentStep) && view == old(view)
    {
      state := state.(pageCount := pageCount);
      state := state.(quantity := quantity);
    }

    /** updateExtrasState: rebuilds the extras from the checked boxes, in page order. */
    method UpdateExtrasState(checked: seq<string>)
      modifies this
      ensures state == old(state).(extras := checked)
      ensures currentStep == old(currentStep) && view == old(view)
    {
      state := state.(extras := []);
      var i := 0;
      while i < |checked|
        invariant 0 <= i <= |checked|
        invariant state == old(state).(extras := checked[..i])
        invariant currentStep == old(currentStep) && view == old(view)
      {
        state := state.(extras := state.extras + [checked[i]]);
        i := i + 1;
      }
      assert checked[..i] == checked;
    }

    /** A successful price calculation stores the price; a failed one leaves the state as it was. */
    method OnPriceCalculated(success: bool, price: Option<int>)
      modifies this
      ensures state == (if success && price.Some? then old(state).(calculatedPrice := price) else old(state))
      ensures currentStep == old(currentStep) && view == old(view)
    {
      if success && price.Some? {
        state := state.(calculatedPrice := price);
      }
    }

    /** handleSubmit: the order goes out only when step 5 validates, that is once a price is calculated. */
    method HandleSubmit() returns (sent: bool)
      ensures sent <==> state.calculatedPrice.Some?
      ensures sent <==> ValidateStep(TotalSteps, state).None?
    {
      var error := ValidateStep(5, state);
      sent := error.None?;
    }

    /** resetForm: every field back to its default and the wizard back on step 1. */
    method ResetForm()
      modifies this
      ensures Valid() && state == InitialState() && currentStep == 1
    {
      state := InitialState();
      ShowStep(1);
    }
  }
}
