/**
 * The order-form tab of the customer dashboard: every option-list setting is forced to an
 * array, the extras list is cleaned of non-scalars, blanks and stray checkbox values, and the
 * form is replaced by an error notice when the product has no book sizes or no paper types.
 */
module OrderFormTab {
  import opened Wrappers
  import opened PhpValues

  /** A value as get_setting() returns it (floats are not part of this model). */
  datatype Value = VNull | VBool(b: bool) | VInt(i: int) | VStr(s: string) | VArray(items: seq<Value>)

  /** The quantity input's attributes. */
  datatype Quantity = Quantity(min: int, max: int, step: int, initial: int)

  datatype TabView =
    | SettingsIncomplete
    | OrderForm(bookSizes: seq<Value>, paperTypes: seq<Value>, printTypes: seq<Value>, bindingTypes: seq<Value>,
                licenseTypes: seq<Value>, coverPaperWeights: seq<Value>, laminationTypes: seq<Value>,
                extras: seq<string>, quantity: Quantity)

  /** The stored settings the tab reads; None is a setting that is not stored. */
  datatype Settings = Settings(
    bookSizes: Option<Value>, paperTypes: Option<Value>, printTypes: Option<Value>, bindingTypes: Option<Value>,
    licenseTypes: Option<Value>, coverPaperWeights: Option<Value>, laminationTypes: Option<Value>, extras: Option<Value>,
    minQuantity: Option<int>, maxQuantity: Option<int>, quantityStep: Option<int>)

  const DefaultMinQuantity := 10
  const DefaultMaxQuantity := 10000
  const DefaultQuantityStep := 10

  /** `is_array($v) ? $v : array()` applied to get_setting($name, array()). */
  function AsArray(v: Option<Value>): (items: seq<Value>)
    ensures v.Some? && v.value.VArray? ==> items == v.value.items
    ensures !(v.Some? && v.value.VArray?) ==> items == []
  {
    match v
    case Some(VArray(items)) => items
    case _ => []
  }

  /** is_scalar(): booleans, integers and strings; null and arrays are not scalars. */
  predicate IsScalar(v: Value)
  {
    v.VBool? || v.VInt? || v.VStr?
  }

  /** strval() of a scalar. */
  function StrVal(v: Value): string
    requires IsScalar(v)
  {
    match v
    case VBool(b) => if b then "1" else ""
    case VInt(i) => IntToString(i)
    case VStr(s) => s
  }

  /** A cleaned extra: non-empty, not "0", not "on", and with no surrounding blanks. */
  predicate Clean(x: string)
  {
    !EmptyString(x) && x != "on" && Trim(x) == x
  }

  /** The array_map closure: the trimmed string value, or null for anything to be dropped. */
  function CleanExtra(v: Value): (r: Option<string>)
    ensures r.Some? ==> Clean(r.value)
  {
    var x := if IsScalar(v) then Trim(StrVal(v)) else "";
    if !EmptyString(x) && x != "on" then
      TrimIdempotent(if IsScalar(v) then StrVal(v) else "");
      Some(x)
    else None
  }

  /** array_filter(array_map($f, $vs)): the values `f` keeps, in their original order. */
  function Survivors(vs: seq<Value>, f: Value -> Option<string>): (r: seq<string>)
    ensures |r| <= |vs|
  {
    if vs == [] then []
    else
      var rest := Survivors(vs[1..], f);
      match f(vs[0])
      case Some(x) => [x] + rest
      case None => rest
  }

  lemma {:induction false} SurvivorsMembers(vs: seq<Value>, f: Value -> Option<string>, x: string)
    ensures x in Survivors(vs, f) <==> exists v :: v in vs && f(v) == Some(x)
  {
    if vs != [] {
      SurvivorsMembers(vs[1..], f, x);
      assert forall v :: v in vs <==> v == vs[0] || v in vs[1..];
    }
  }

  /** Filtering keeps order: the survivors of two lists one after the other are the two lists of survivors one after the other. */
  lemma {:induction false} SurvivorsAppend(a: seq<Value>, b: seq<Value>, f: Value -> Option<string>)
    ensures Survivors(a + b, f) == Survivors(a, f) + Survivors(b, f)
  {
    if a == [] {
      assert a + b == b;
    } else {
      assert (a + b)[0] == a[0] && (a + b)[1..] == a[1..] + b;
      SurvivorsAppend(a[1..], b, f);
    }
  }

  /** The cleaned extras list: every survivor is clean, and a value survives exactly when some stored value cleans to it. */
  function CleanExtras(vs: seq<Value>): (r: seq<string>)
    ensures |r| <= |vs|
    ensures forall x :: x in r ==> Clean(x)
    ensures forall x :: x in r <==> exists v :: v in vs && CleanExtra(v) == Some(x)
  {
    forall x
      ensures x in Survivors(vs, CleanExtra) <==> exists v :: v in vs && CleanExtra(v) == Some(x)
    {
      SurvivorsMembers(vs, CleanExtra, x);
    }
    Survivors(vs, CleanExtra)
  }

  /** Cleaning keeps order: the extras of two lists placed one after the other are the two cleaned lists one after the other. */
  lemma CleanExtrasAppend(a: seq<Value>, b: seq<Value>)
    ensures CleanExtras(a + b) == CleanExtras(a) + CleanExtras(b)
  {
    SurvivorsAppend(a, b, CleanExtra);
  }

  function AsValues(xs: seq<string>): (vs: seq<Value>)
    ensures |vs| == |xs| && forall i :: 0 <= i < |xs| ==> vs[i] == VStr(xs[i])
  {
    if xs == [] then [] else [VStr(xs[0])] + AsValues(xs[1..])
  }

  /** A clean string survives cleaning as itself. */
  lemma CleanExtraOfClean(x: string)
    requires Clean(x)
    ensures CleanExtra(VStr(x)) == Some(x)
  {
    assert IsScalar(VStr(x)) && StrVal(VStr(x)) == x;
  }

  lemma {:induction false} SurvivorsOfClean(xs: seq<string>, vs: seq<Value>)
    requires forall x :: x in xs ==> Clean(x)
    requires vs == AsValues(xs)
    ensures Survivors(vs, CleanExtra) == xs
  {
    if xs != [] {
      assert vs[1..] == AsValues(xs[1..]);
      SurvivorsOfClean(xs[1..], vs[1..]);
      assert xs[0] in xs;
      CleanExtraOfClean(xs[0]);
      assert CleanExtra(vs[0]) == Some(xs[0]);
      assert xs == [xs[0]] + xs[1..];
    }
  }

  /** Cleaning a cleaned list changes nothing: a saved, cleaned extras list is shown as it is. */
  lemma CleanExtrasIdempotent(xs: seq<string>)
    requires forall x :: x in xs ==> Clean(x)
    ensures CleanExtras(AsValues(xs)) == xs
  {
    SurvivorsOfClean(xs, AsValues(xs));
  }

  /** get_setting($name, $default) for the quantity settings. */
  function QuantityOf(s: Settings): (q: Quantity)
    ensures s.minQuantity.None? ==> q.min == DefaultMinQuantity
    ensures s.maxQuantity.None? ==> q.max == DefaultMaxQuantity
    ensures s.quantityStep.None? ==> q.step == DefaultQuantityStep
    ensures s.minQuantity.Some? ==> q.min == s.minQuantity.value
    ensures s.maxQuantity.Some? ==> q.max == s.maxQuantity.value
    ensures s.quantityStep.Some? ==> q.step == s.quantityStep.value
    ensures q.initial == q.min
  {
    var min := if s.minQuantity.Some? then s.minQuantity.value else DefaultMinQuantity;
    var max := if s.maxQuantity.Some? then s.maxQuantity.value else DefaultMaxQuantity;
    var step := if s.quantityStep.Some? then s.quantityStep.value else DefaultQuantityStep;
    Quantity(min, max, step, min)
  }

  /** What the tab shows: the error notice when book sizes or paper types are empty, otherwise the form. */
  function Render(s: Settings): (v: TabView)
    ensures v.SettingsIncomplete? <==> AsArray(s.bookSizes) == [] || AsArray(s.paperTypes) == []
    ensures v.OrderForm? ==>
              v.bookSizes == AsArray(s.bookSizes) && v.paperTypes == AsArray(s.paperTypes)
              && v.printTypes == AsArray(s.printTypes) && v.bindingTypes == AsArray(s.bindingTypes)
              && v.licenseTypes == AsArray(s.licenseTypes) && v.coverPaperWeights == AsArray(s.coverPaperWeights)
              && v.laminationTypes == AsArray(s.laminationTypes)
              && v.extras == CleanExtras(AsArray(s.extras)) && v.quantity == QuantityOf(s)
  {
    var bookSizes := AsArray(s.bookSizes);
    var paperTypes := AsArray(s.paperTypes);
    if bookSizes == [] || paperTypes == [] then SettingsIncomplete
    else
      OrderForm(bookSizes, paperTypes, AsArray(s.printTypes), AsArray(s.bindingTypes), AsArray(s.licenseTypes),
                AsArray(s.coverPaperWeights), AsArray(s.laminationTypes), CleanExtras(AsArray(s.extras)), QuantityOf(s))
  }

  /** With the quantity settings unset the input runs from 10 to 10000 in steps of 10 and starts at 10. */
  lemma DefaultQuantityInput(s: Settings)
    requires s.minQuantity.None? && s.maxQuantity.None? && s.quantityStep.None?
    requires AsArray(s.bookSizes) != [] && AsArray(s.paperTypes) != []
    ensures Render(s).OrderForm? && Render(s).quantity == Quantity(10, 10000, 10, 10)
  {
  }
}
