/**
 * Print substeps (class-tabesh-print-substeps.php): the printing stages of an order in
 * "processing" are generated once from the order's specification, then ticked off by staff.
 * The substeps table, the auto-increment counter and the history log are fields of
 * `SubstepTable`; `PlanSubsteps` is the list the generator builds before inserting it.
 * Titles and detail texts are Persian labels; the model keeps the key of each stage and the
 * order fields its details are made from.
 */
module PrintSubsteps {
  import opened Wrappers
  import opened PhpValues
  import opened Orders

  datatype SubstepKey = CoverPrinting | CoverLamination | ContentPrinting | Binding | ExtraServices | Packaging

  /** The position of each stage in the generator's fixed sequence. */
  function Rank(k: SubstepKey): nat
  {
    match k
    case CoverPrinting => 0
    case CoverLamination => 1
    case ContentPrinting => 2
    case Binding => 3
    case ExtraServices => 4
    case Packaging => 5
  }

  datatype Details =
    | CoverWeight(weight: string)
    | LaminationKind(kind: string)
    | Paper(paperType: string, paperWeight: string)
    | BindingKind(kind: string)
    | ServiceList(items: seq<string>)
    | PackagingNote

  datatype Planned = Planned(key: SubstepKey, details: Details)

  predicate HasKey(plan: seq<Planned>, k: SubstepKey)
  {
    exists i :: 0 <= i < |plan| && plan[i].key == k
  }

  /** Each planned stage carries the order fields its details are built from. */
  predicate DetailsFromOrder(p: Planned, o: Order)
  {
    match p.key
    case CoverPrinting => p.details == CoverWeight(o.coverPaperWeight)
    case CoverLamination => p.details == LaminationKind(o.laminationType)
    case ContentPrinting => p.details == Paper(o.paperType, o.paperWeight)
    case Binding => p.details == BindingKind(o.bindingType)
    case ExtraServices => o.extras.ExtrasList? && p.details == ServiceList(o.extras.items)
    case Packaging => p.details == PackagingNote
  }

  predicate StrictlyRanked(plan: seq<Planned>)
  {
    forall i, j :: 0 <= i < j < |plan| ==> Rank(plan[i].key) < Rank(plan[j].key)
  }

  /**
   * The substeps generate_substeps_for_order builds for an order, in display order: cover
   * printing when a cover weight is set, lamination unless it is absent or "no lamination",
   * content printing when both paper type and weight are set, binding when a binding type is
   * set, additional services when extras is a non-empty list, and packaging always, last.
   */
  function PlanSubsteps(o: Order): (plan: seq<Planned>)
    ensures 1 <= |plan| <= 6
    ensures plan[|plan| - 1] == Planned(Packaging, PackagingNote)
    ensures StrictlyRanked(plan)
    ensures forall i :: 0 <= i < |plan| ==> DetailsFromOrder(plan[i], o)
    ensures HasKey(plan, CoverPrinting) <==> !EmptyString(o.coverPaperWeight)
    ensures HasKey(plan, CoverLamination) <==> !EmptyString(o.laminationType) && o.laminationType != NoLamination
    ensures HasKey(plan, ContentPrinting) <==> !EmptyString(o.paperType) && !EmptyString(o.paperWeight)
    ensures HasKey(plan, Binding) <==> !EmptyString(o.bindingType)
    ensures HasKey(plan, ExtraServices) <==> o.extras.IsNonEmptyList()
    ensures HasKey(plan, Packaging)
  {
    var a, b, c, d, e := CoverStage(o), LaminationStage(o), ContentStage(o), BindingStage(o), ExtrasStage(o);
    var plan := a + b + c + d + e + [Planned(Packaging, PackagingNote)];
    PlanFacts(o, a, b, c, d, e, plan);
    plan
  }

  /** Cover printing, when a cover weight is set. */
  function CoverStage(o: Order): (r: seq<Planned>)
    ensures |r| <= 1 && AllFromOrder(r, o) && (forall p :: p in r ==> p.key == CoverPrinting)
    ensures r != [] <==> !EmptyString(o.coverPaperWeight)
  {
    if !EmptyString(o.coverPaperWeight) then [Planned(CoverPrinting, CoverWeight(o.coverPaperWeight))] else []
  }

  /** Cover lamination, unless the type is absent or "no lamination". */
  function LaminationStage(o: Order): (r: seq<Planned>)
    ensures |r| <= 1 && AllFromOrder(r, o) && (forall p :: p in r ==> p.key == CoverLamination)
    ensures r != [] <==> !EmptyString(o.laminationType) && o.laminationType != NoLamination
  {
    if !EmptyString(o.laminationType) && o.laminationType != NoLamination then
      [Planned(CoverLamination, LaminationKind(o.laminationType))]
    else []
  }

  /** Content printing, when both paper type and paper weight are set. */
  function ContentStage(o: Order): (r: seq<Planned>)
    ensures |r| <= 1 && AllFromOrder(r, o) && (forall p :: p in r ==> p.key == ContentPrinting)
    ensures r != [] <==> !EmptyString(o.paperType) && !EmptyString(o.paperWeight)
  {
    if !EmptyString(o.paperType) && !EmptyString(o.paperWeight) then
      [Planned(ContentPrinting, Paper(o.paperType, o.paperWeight))]
    else []
  }

  /** Binding, when a binding type is set. */
  function BindingStage(o: Order): (r: seq<Planned>)
    ensures |r| <= 1 && AllFromOrder(r, o) && (forall p :: p in r ==> p.key == Binding)
    ensures r != [] <==> !EmptyString(o.bindingType)
  {
    if !EmptyString(o.bindingType) then [Planned(Binding, BindingKind(o.bindingType))] else []
  }

  /** Additional services, when the extras field holds a non-empty list. */
  function ExtrasStage(o: Order): (r: seq<Planned>)
    ensures |r| <= 1 && AllFromOrder(r, o) && (forall p :: p in r ==> p.key == ExtraServices)
    ensures r != [] <==> o.extras.IsNonEmptyList()
  {
    if o.extras.IsNonEmptyList() then
      [Planned(ExtraServices, ServiceList(if o.extras.ExtrasList? then o.extras.items else []))]
    else []
  }

  /** The plan is made of at most one stage of each kind, in generator order, then packaging. */
  predicate PlanParts(a: seq<Planned>, b: seq<Planned>, c: seq<Planned>, d: seq<Planned>, e: seq<Planned>,
                      plan: seq<Planned>)
  {
    && |a| <= 1 && |b| <= 1 && |c| <= 1 && |d| <= 1 && |e| <= 1
    && (forall p :: p in a ==> p.key == CoverPrinting)
    && (forall p :: p in b ==> p.key == CoverLamination)
    && (forall p :: p in c ==> p.key == ContentPrinting)
    && (forall p :: p in d ==> p.key == Binding)
    && (forall p :: p in e ==> p.key == ExtraServices)
    && plan == a + b + c + d + e + [Planned(Packaging, PackagingNote)]
  }

  lemma PlanFacts(o: Order, a: seq<Planned>, b: seq<Planned>, c: seq<Planned>, d: seq<Planned>, e: seq<Planned>,
                  plan: seq<Planned>)
    requires PlanParts(a, b, c, d, e, plan)
    requires AllFromOrder(a, o) && AllFromOrder(b, o) && AllFromOrder(c, o) && AllFromOrder(d, o) && AllFromOrder(e, o)
    ensures 1 <= |plan| <= 6 && plan[|plan| - 1] == Planned(Packaging, PackagingNote)
    ensures StrictlyRanked(plan)
    ensures forall i :: 0 <= i < |plan| ==> DetailsFromOrder(plan[i], o)
    ensures HasKey(plan, CoverPrinting) <==> a != []
    ensures HasKey(plan, CoverLamination) <==> b != []
    ensures HasKey(plan, ContentPrinting) <==> c != []
    ensures HasKey(plan, Binding) <==> d != []
    ensures HasKey(plan, ExtraServices) <==> e != []
    ensures HasKey(plan, Packaging)
  {
    PlanRanked(a, b, c, d, e, plan);
    PlanDetails(o, a, b, c, d, e, plan);
    PlanKeys(a, b, c, d, e, plan);
  }

  lemma PlanRanked(a: seq<Planned>, b: seq<Planned>, c: seq<Planned>, d: seq<Planned>, e: seq<Planned>,
                   plan: seq<Planned>)
    requires PlanParts(a, b, c, d, e, plan)
    ensures StrictlyRanked(plan)
  {
    forall i, j | 0 <= i < j < |plan|
      ensures Rank(plan[i].key) < Rank(plan[j].key)
    {
      RankAt(a, b, c, d, e, plan, i);
      RankAt(a, b, c, d, e, plan, j);
    }
  }

  /** Every stage of `ps` carries the order fields its details are built from. */
  predicate AllFromOrder(ps: seq<Planned>, o: Order)
  {
    forall i :: 0 <= i < |ps| ==> DetailsFromOrder(ps[i], o)
  }

  lemma AllFromOrderAppend(xs: seq<Planned>, ys: seq<Planned>, o: Order)
    requires AllFromOrder(xs, o) && AllFromOrder(ys, o)
    ensures AllFromOrder(xs + ys, o)
  {
    forall i | 0 <= i < |xs + ys| ensures DetailsFromOrder((xs + ys)[i], o) {
      if i < |xs| { assert (xs + ys)[i] == xs[i]; } else { assert (xs + ys)[i] == ys[i - |xs|]; }
    }
  }

  lemma PlanDetails(o: Order, a: seq<Planned>, b: seq<Planned>, c: seq<Planned>, d: seq<Planned>, e: seq<Planned>,
                    plan: seq<Planned>)
    requires PlanParts(a, b, c, d, e, plan)
    requires AllFromOrder(a, o) && AllFromOrder(b, o) && AllFromOrder(c, o) && AllFromOrder(d, o) && AllFromOrder(e, o)
    ensures forall i :: 0 <= i < |plan| ==> DetailsFromOrder(plan[i], o)
  {
    AllFromOrderAppend(a, b, o);
    AllFromOrderAppend(a + b, c, o);
    AllFromOrderAppend(a + b + c, d, o);
    AllFromOrderAppend(a + b + c + d, e, o);
    var last := [Planned(Packaging, PackagingNote)];
    assert AllFromOrder(last, o);
    AllFromOrderAppend(a + b + c + d + e, last, o);
  }

  lemma PlanKeys(a: seq<Planned>, b: seq<Planned>, c: seq<Planned>, d: seq<Planned>, e: seq<Planned>,
                 plan: seq<Planned>)
    requires PlanParts(a, b, c, d, e, plan)
    ensures HasKey(plan, CoverPrinting) <==> a != []
    ensures HasKey(plan, CoverLamination) <==> b != []
    ensures HasKey(plan, ContentPrinting) <==> c != []
    ensures HasKey(plan, Binding) <==> d != []
    ensures HasKey(plan, ExtraServices) <==> e != []
    ensures HasKey(plan, Packaging)
  {
    assert plan[|plan| - 1].key == Packaging;
    forall i | 0 <= i < |plan| ensures
      && (plan[i].key == CoverPrinting ==> a != [])
      && (plan[i].key == CoverLamination ==> b != [])
      && (plan[i].key == ContentPrinting ==> c != [])
      && (plan[i].key == Binding ==> d != [])
      && (plan[i].key == ExtraServices ==> e != [])
    {
      RankAt(a, b, c, d, e, plan, i);
    }
    if a != [] { assert plan[0] == a[0]; }
    if b != [] { assert plan[|a|] == b[0]; }
    if c != [] { assert plan[|a + b|] == c[0]; }
    if d != [] { assert plan[|a + b + c|] == d[0]; }
    if e != [] { assert plan[|a + b + c + d|] == e[0]; }
  }

  /** The rank of the stage at position i is determined by which part of the plan i falls in. */
  lemma RankAt(a: seq<Planned>, b: seq<Planned>, c: seq<Planned>, d: seq<Planned>, e: seq<Planned>,
               plan: seq<Planned>, i: int)
    requires PlanParts(a, b, c, d, e, plan)
    requires 0 <= i < |plan|
    ensures i < |a| ==> Rank(plan[i].key) == 0
    ensures |a| <= i < |a + b| ==> Rank(plan[i].key) == 1
    ensures |a + b| <= i < |a + b + c| ==> Rank(plan[i].key) == 2
    ensures |a + b + c| <= i < |a + b + c + d| ==> Rank(plan[i].key) == 3
    ensures |a + b + c + d| <= i < |a + b + c + d + e| ==> Rank(plan[i].key) == 4
    ensures i == |plan| - 1 ==> Rank(plan[i].key) == 5
  {
    if i < |a| { assert plan[i] == a[i]; }
    else if i < |a + b| { assert plan[i] == b[i - |a|]; }
    else if i < |a + b + c| { assert plan[i] == c[i - |a + b|]; }
    else if i < |a + b + c + d| { assert plan[i] == d[i - |a + b + c|]; }
    else if i < |a + b + c + d + e| { assert plan[i] == e[i - |a + b + c + d|]; }
  }

  /** Every order gets its packaging stage, so generation never produces an empty list. */
  lemma PlanNeverEmpty(o: Order)
    ensures exists i :: 0 <= i < |PlanSubsteps(o)| && PlanSubsteps(o)[i].key == Packaging
  {
    assert HasKey(PlanSubsteps(o), Packaging);
  }

  // ------------------------------------------------------------------ rows

  datatype Substep = Substep(
    id: int,
    orderId: int,
    key: SubstepKey,
    details: Details,
    isCompleted: bool,
    displayOrder: int,
    completedAt: Option<int>,
    completedBy: Option<int>)

  /** The rows the generator inserts for a plan: fresh ids from `firstId`, not completed, display order = position. */
  function Materialize(orderId: int, plan: seq<Planned>, firstId: int): (rs: seq<Substep>)
    ensures |rs| == |plan|
    ensures forall i :: 0 <= i < |rs| ==>
      rs[i] == Substep(firstId + i, orderId, plan[i].key, plan[i].details, false, i, None, None)
  {
    seq(|plan|, i requires 0 <= i < |plan| => Substep(firstId + i, orderId, plan[i].key, plan[i].details, false, i, None, None))
  }

  /** `SELECT * ... WHERE order_id = %d`, in table order. */
  function RowsOf(rows: seq<Substep>, orderId: int): (r: seq<Substep>)
    ensures |r| <= |rows|
    ensures forall i :: 0 <= i < |r| ==> r[i].orderId == orderId && r[i] in rows
    ensures forall x :: x in rows && x.orderId == orderId ==> x in r
  {
    if rows == [] then []
    else (if rows[0].orderId == orderId then [rows[0]] else []) + RowsOf(rows[1..], orderId)
  }

  /** `DELETE ... WHERE order_id = %d`: the rows of every other order, in table order. */
  function WithoutOrder(rows: seq<Substep>, orderId: int): (r: seq<Substep>)
    ensures |r| <= |rows|
    ensures forall i :: 0 <= i < |r| ==> r[i].orderId != orderId && r[i] in rows
  {
    if rows == [] then []
    else (if rows[0].orderId != orderId then [rows[0]] else []) + WithoutOrder(rows[1..], orderId)
  }

  /** The position of the row with the given id, if any. */
  function FindRow(rows: seq<Substep>, id: int): (r: Option<nat>)
    ensures r.Some? ==> r.value < |rows| && rows[r.value].id == id
    ensures r.None? ==> forall i :: 0 <= i < |rows| ==> rows[i].id != id
  {
    if rows == [] then None
    else if rows[|rows| - 1].id == id then Some(|rows| - 1)
    else FindRow(rows[..|rows| - 1], id)
  }

  predicate Numbered(rs: seq<Substep>)
  {
    forall i :: 0 <= i < |rs| ==> rs[i].displayOrder == i
  }

  /** Rows sorted by strictly increasing id below the next auto-increment value, and each order's rows numbered 0, 1, ... */
  ghost predicate WellFormed(rows: seq<Substep>, nextId: int)
  {
    && nextId >= 1
    && IdsWithin(rows, 1, nextId)
    && IncreasingIds(rows)
    && (forall k :: Numbered(RowsOf(rows, k)))
  }

  // ------------------------------------------------------------------ progress

  function CountCompleted(rs: seq<Substep>): (n: nat)
    ensures n <= |rs|
    ensures n == |rs| <==> forall i :: 0 <= i < |rs| ==> rs[i].isCompleted
  {
    if rs == [] then 0
    else CountCompleted(rs[..|rs| - 1]) + (if rs[|rs| - 1].isCompleted then 1 else 0)
  }

  /**
   * calculate_print_progress: 0 for an order without substeps, otherwise the completed share
   * as a whole percentage (truncated). It is 100 exactly when every substep is completed.
   */
  function Progress(rs: seq<Substep>): (p: nat)
    ensures p <= 100
    ensures p == 100 <==> |rs| > 0 && forall i :: 0 <= i < |rs| ==> rs[i].isCompleted
    ensures rs == [] ==> p == 0
  {
    Percent(CountCompleted(rs), |rs|)
  }

  /** are_all_substeps_completed: progress is exactly 100. */
  function AllSubstepsCompleted(rs: seq<Substep>): (b: bool)
    ensures b <==> |rs| > 0 && forall i :: 0 <= i < |rs| ==> rs[i].isCompleted
  {
    Progress(rs) == 100
  }

  /** Completing more substeps of an order never lowers its progress. */
  lemma {:induction false} ProgressMonotone(rs: seq<Substep>, rs': seq<Substep>)
    requires |rs| == |rs'|
    requires forall i :: 0 <= i < |rs| ==> rs[i].isCompleted ==> rs'[i].isCompleted
    ensures CountCompleted(rs) <= CountCompleted(rs')
    ensures Progress(rs) <= Progress(rs')
  {
    if rs != [] {
      ProgressMonotone(rs[..|rs| - 1], rs'[..|rs'| - 1]);
    }
    PercentMonotone(CountCompleted(rs), CountCompleted(rs'), |rs|);
  }

  // ------------------------------------------------------------------ lemmas on the row helpers

  lemma {:induction false} RowsOfAppend(a: seq<Substep>, b: seq<Substep>, k: int)
    ensures RowsOf(a + b, k) == RowsOf(a, k) + RowsOf(b, k)
  {
    if a != [] {
      assert (a + b)[1..] == a[1..] + b;
      RowsOfAppend(a[1..], b, k);
    } else {
      assert a + b == b;
    }
  }

  lemma {:induction false} RowsOfAllSame(rs: seq<Substep>, k: int)
    requires forall i :: 0 <= i < |rs| ==> rs[i].orderId == k
    ensures RowsOf(rs, k) == rs
  {
    if rs != [] {
      RowsOfAllSame(rs[1..], k);
    }
  }

  lemma {:induction false} RowsOfNoneSame(rs: seq<Substep>, k: int)
    requires forall i :: 0 <= i < |rs| ==> rs[i].orderId != k
    ensures RowsOf(rs, k) == []
  {
    if rs != [] {
      RowsOfNoneSame(rs[1..], k);
    }
  }

  lemma RowsOfMaterialize(orderId: int, plan: seq<Planned>, firstId: int, k: int)
    ensures RowsOf(Materialize(orderId, plan, firstId), k) == if k == orderId then Materialize(orderId, plan, firstId) else []
  {
    if k == orderId {
      RowsOfAllSame(Materialize(orderId, plan, firstId), k);
    } else {
      RowsOfNoneSame(Materialize(orderId, plan, firstId), k);
    }
  }

  lemma MaterializeSnoc(orderId: int, plan: seq<Planned>, firstId: int, i: nat)
    requires i < |plan|
    ensures Materialize(orderId, plan[..i + 1], firstId)
         == Materialize(orderId, plan[..i], firstId)
            + [Substep(firstId + i, orderId, plan[i].key, plan[i].details, false, i, None, None)]
  {
  }

  lemma {:induction false} RowsOfWithoutOrder(rows: seq<Substep>, o: int, k: int)
    ensures RowsOf(WithoutOrder(rows, o), k) == if k == o then [] else RowsOf(rows, k)
  {
    if rows != [] {
      RowsOfWithoutOrder(rows[1..], o, k);
      var head := if rows[0].orderId != o then [rows[0]] else [];
      RowsOfAppend(head, WithoutOrder(rows[1..], o), k);
    }
  }

  /** Display orders and order ids of the rows, the parts of a row that updates never touch. */
  function Shape(rs: seq<Substep>): seq<(int, int, int)>
  {
    seq(|rs|, i requires 0 <= i < |rs| => (rs[i].id, rs[i].orderId, rs[i].displayOrder))
  }

  lemma {:induction false} RowsOfSameShape(a: seq<Substep>, b: seq<Substep>, k: int)
    requires Shape(a) == Shape(b)
    ensures Shape(RowsOf(a, k)) == Shape(RowsOf(b, k))
  {
    if a != [] {
      assert |a| == |Shape(a)| == |Shape(b)| == |b|;
      assert Shape(a)[0] == Shape(b)[0];
      assert Shape(a[1..]) == Shape(a)[1..];
      assert Shape(b[1..]) == Shape(b)[1..];
      RowsOfSameShape(a[1..], b[1..], k);
      var ha := if a[0].orderId == k then [a[0]] else [];
      var hb := if b[0].orderId == k then [b[0]] else [];
      ShapeAppend(ha, RowsOf(a[1..], k));
      ShapeAppend(hb, RowsOf(b[1..], k));
    }
  }

  lemma ShapeAppend(a: seq<Substep>, b: seq<Substep>)
    ensures Shape(a + b) == Shape(a) + Shape(b)
  {
  }

  predicate IncreasingIds(rs: seq<Substep>)
  {
    forall i, j :: 0 <= i < j < |rs| ==> rs[i].id < rs[j].id
  }

  predicate IdsWithin(rs: seq<Substep>, lo: int, hi: int)
  {
    forall i :: 0 <= i < |rs| ==> lo <= rs[i].id < hi
  }

  lemma AppendIncreasing(a: seq<Substep>, b: seq<Substep>, lo: int, mid: int, hi: int)
    requires lo <= mid <= hi
    requires IncreasingIds(a) && IncreasingIds(b) && IdsWithin(a, lo, mid) && IdsWithin(b, mid, hi)
    ensures IncreasingIds(a + b) && IdsWithin(a + b, lo, hi)
  {
    var ab := a + b;
    forall i, j | 0 <= i < j < |ab| ensures ab[i].id < ab[j].id {
      if j < |a| {
        assert ab[i] == a[i] && ab[j] == a[j];
      } else if i >= |a| {
        assert ab[i] == b[i - |a|] && ab[j] == b[j - |a|];
      } else {
        assert ab[i] == a[i] && ab[j] == b[j - |a|];
      }
    }
    forall i | 0 <= i < |ab| ensures lo <= ab[i].id < hi {
      if i < |a| { assert ab[i] == a[i]; } else { assert ab[i] == b[i - |a|]; }
    }
  }

  lemma {:induction false} WithoutOrderIncreasing(rows: seq<Substep>, o: int, lo: int, hi: int)
    requires IncreasingIds(rows) && IdsWithin(rows, lo, hi)
    ensures IncreasingIds(WithoutOrder(rows, o)) && IdsWithin(WithoutOrder(rows, o), lo, hi)
  {
    if rows != [] {
      var tail := WithoutOrder(rows[1..], o);
      WithoutOrderIncreasing(rows[1..], o, rows[0].id + 1, hi);
      var head := if rows[0].orderId != o then [rows[0]] else [];
      AppendIncreasing(head, tail, lo, rows[0].id + 1, hi);
    }
  }

  /** Appending a generated plan for an order that had no rows keeps the table well formed. */
  lemma AppendPlanWellFormed(rows: seq<Substep>, nextId: int, orderId: int, plan: seq<Planned>)
    requires WellFormed(rows, nextId)
    requires RowsOf(rows, orderId) == []
    ensures WellFormed(rows + Materialize(orderId, plan, nextId), nextId + |plan|)
  {
    var m := Materialize(orderId, plan, nextId);
    MaterializeIds(orderId, plan, nextId);
    AppendIncreasing(rows, m, 1, nextId, nextId + |plan|);
    forall k ensures Numbered(RowsOf(rows + m, k)) {
      AppendPlanNumbered(rows, orderId, plan, nextId, k);
    }
  }

  /** Planned rows take consecutive ids from the first free one. */
  lemma MaterializeIds(orderId: int, plan: seq<Planned>, firstId: int)
    ensures IncreasingIds(Materialize(orderId, plan, firstId))
    ensures IdsWithin(Materialize(orderId, plan, firstId), firstId, firstId + |plan|)
  {
  }

  /** Appending the planned rows of an order that had none keeps every order's rows numbered. */
  lemma AppendPlanNumbered(rows: seq<Substep>, orderId: int, plan: seq<Planned>, firstId: int, k: int)
    requires Numbered(RowsOf(rows, k))
    requires RowsOf(rows, orderId) == []
    ensures Numbered(RowsOf(rows + Materialize(orderId, plan, firstId), k))
  {
    var m := Materialize(orderId, plan, firstId);
    RowsOfAppend(rows, m, k);
    RowsOfMaterialize(orderId, plan, firstId, k);
    if k == orderId {
      assert RowsOf(rows + m, k) == [] + m;
    } else {
      assert RowsOf(rows + m, k) == RowsOf(rows, k) + [];
    }
  }

  /** Changing only completion fields of one row keeps the table well formed. */
  lemma UpdateWellFormed(rows: seq<Substep>, nextId: int, j: nat, x: Substep)
    requires WellFormed(rows, nextId)
    requires j < |rows| && x.id == rows[j].id && x.orderId == rows[j].orderId && x.displayOrder == rows[j].displayOrder
    ensures WellFormed(rows[j := x], nextId)
  {
    var rows' := rows[j := x];
    assert Shape(rows') == Shape(rows);
    forall k ensures Numbered(RowsOf(rows', k)) {
      RowsOfSameShape(rows', rows, k);
      var a, b := RowsOf(rows', k), RowsOf(rows, k);
      assert |a| == |Shape(a)| == |Shape(b)| == |b|;
      forall i | 0 <= i < |a| ensures a[i].displayOrder == i {
        assert Shape(a)[i] == Shape(b)[i];
      }
    }
  }

  lemma DeleteWellFormed(rows: seq<Substep>, nextId: int, o: int)
    requires WellFormed(rows, nextId)
    ensures WellFormed(WithoutOrder(rows, o), nextId)
  {
    WithoutOrderIncreasing(rows, o, 1, nextId);
    forall k ensures Numbered(RowsOf(WithoutOrder(rows, o), k)) {
      RowsOfWithoutOrder(rows, o, k);
    }
  }

  // ------------------------------------------------------------------ the table

  datatype LogEntry =
    | SubstepChange(orderId: int, customerId: int, staffId: int, substepId: int, key: SubstepKey, completed: bool)
    | SubstepsCompleted(orderId: int, customer: Option<int>, staffId: int)

  function CompletionLogCount(logs: seq<LogEntry>, orderId: int): nat
  {
    if logs == [] then 0
    else CompletionLogCount(logs[..|logs| - 1], orderId)
         + (if logs[|logs| - 1].SubstepsCompleted? && logs[|logs| - 1].orderId == orderId then 1 else 0)
  }

  lemma CompletionLogCountAppend(a: seq<LogEntry>, b: seq<LogEntry>, orderId: int)
    ensures CompletionLogCount(a + b, orderId) == CompletionLogCount(a, orderId) + CompletionLogCount(b, orderId)
  {
    if b != [] {
      assert (a + b)[..|a + b| - 1] == a + b[..|b| - 1];
      CompletionLogCountAppend(a, b[..|b| - 1], orderId);
    } else {
      assert a + b == a;
    }
  }

  /** The history entry log_substep_change writes: only when the order has a customer (a non-zero user id). */
  function ChangeLog(orders: map<int, Order>, row: Substep, completed: bool, staffId: int): (r: seq<LogEntry>)
    ensures |r| <= 1
    ensures r != [] <==> row.orderId in orders && orders[row.orderId].userId != 0
  {
    if row.orderId in orders && orders[row.orderId].userId != 0 then
      [SubstepChange(row.orderId, orders[row.orderId].userId, staffId, row.id, row.key, completed)]
    else []
  }

  /** The new completion fields: time and staff member on completion, both cleared otherwise. */
  function Mark(row: Substep, completed: bool, staffId: int, now: int): (r: Substep)
    ensures r.id == row.id && r.orderId == row.orderId && r.key == row.key
    ensures r.displayOrder == row.displayOrder && r.details == row.details
    ensures r.isCompleted == completed
    ensures completed <==> r.completedAt.Some? && r.completedBy.Some?
    ensures completed ==> r.completedAt == Some(now) && r.completedBy == Some(staffId)
  {
    row.(isCompleted := completed,
         completedAt := if completed then Some(now) else None,
         completedBy := if completed then Some(staffId) else None)
  }

  datatype SubstepReply =
    | ErrorReply(code: int)
    | Toggled(orderId: int, progress: nat, allCompleted: bool)

  class SubstepTable {
    var rows: seq<Substep>
    var nextId: int
    var logs: seq<LogEntry>

    ghost predicate Valid()
      reads this
    {
      WellFormed(rows, nextId) && forall k :: CompletionLogCount(logs, k) <= 1
    }

    constructor()
      ensures Valid()
      ensures rows == [] && logs == [] && nextId == 1
    {
      rows := [];
      nextId := 1;
      logs := [];
    }

    /**
     * generate_substeps_for_order: false for an unknown order; true without inserting when the
     * order already has substeps; otherwise inserts the planned substeps one by one.
     */
    method GenerateSubstepsForOrder(orders: map<int, Order>, orderId: int) returns (ok: bool)
      requires Valid()
      modifies this
      ensures Valid()
      ensures ok <==> orderId in orders
      ensures logs == old(logs)
      ensures orderId !in orders || RowsOf(old(rows), orderId) != [] ==>
                rows == old(rows) && nextId == old(nextId)
      ensures orderId in orders && RowsOf(old(rows), orderId) == [] ==>
                && rows == old(rows) + Materialize(orderId, PlanSubsteps(orders[orderId]), old(nextId))
                && nextId == old(nextId) + |PlanSubsteps(orders[orderId])|
    {
      if orderId !in orders {
        return false;
      }
      if RowsOf(rows, orderId) != [] {
        return true;
      }
      var plan := PlanSubsteps(orders[orderId]);
      ghost var target := rows + Materialize(orderId, plan, nextId);
      ghost var next := nextId + |plan|;
      assert WellFormed(target, next) by {
        AppendPlanWellFormed(rows, nextId, orderId, plan);
      }
      assert forall k :: CompletionLogCount(logs, k) <= 1;
      InsertPlanned(orderId, plan);
      assert rows == target && nextId == next;
      return true;
    }

    /** The insertion loop: one row per planned substep, with consecutive fresh ids. */
    method InsertPlanned(orderId: int, plan: seq<Planned>)
      modifies this
      ensures rows == old(rows) + Materialize(orderId, plan, old(nextId))
      ensures nextId == old(nextId) + |plan|
      ensures logs == old(logs)
    {
      ghost var added: seq<Substep> := [];
      var i := 0;
      while i < |plan|
        invariant 0 <= i <= |plan|
        invariant added == Materialize(orderId, plan[..i], old(nextId))
        invariant rows == old(rows) + added
        invariant nextId == old(nextId) + i
        invariant logs == old(logs)
      {
        var row := Substep(nextId, orderId, plan[i].key, plan[i].details, false, i, None, None);
        MaterializeSnoc(orderId, plan, old(nextId), i);
        added := added + [row];
        rows := rows + [row];
        nextId := nextId + 1;
        i := i + 1;
      }
      assert plan[..i] == plan;
    }

    /**
     * get_order_substeps: the order's substeps in display order, generating them first when
     * the order has none. An existing order always comes back with at least its packaging stage.
     */
    method GetOrderSubsteps(orders: map<int, Order>, orderId: int) returns (r: seq<Substep>)
      requires Valid()
      modifies this
      ensures Valid()
      ensures r == RowsOf(rows, orderId)
      ensures forall i :: 0 <= i < |r| ==> r[i].displayOrder == i
      ensures RowsOf(old(rows), orderId) != [] ==> rows == old(rows) && r == RowsOf(old(rows), orderId)
      ensures orderId in orders && RowsOf(old(rows), orderId) == [] ==>
                r == Materialize(orderId, PlanSubsteps(orders[orderId]), old(nextId))
      ensures orderId in orders ==> |r| >= 1
      ensures logs == old(logs)
      ensures orderId in orders && RowsOf(old(rows), orderId) == [] ==>
                && rows == old(rows) + Materialize(orderId, PlanSubsteps(orders[orderId]), old(nextId))
                && nextId == old(nextId) + |PlanSubsteps(orders[orderId])|
      ensures orderId !in orders || RowsOf(old(rows), orderId) != [] ==>
                rows == old(rows) && nextId == old(nextId)
    {
      if RowsOf(rows, orderId) == [] {
        var _ := GenerateSubstepsForOrder(orders, orderId);
        if orderId in orders {
          var m := Materialize(orderId, PlanSubsteps(orders[orderId]), old(nextId));
          RowsOfAppend(old(rows), m, orderId);
          RowsOfMaterialize(orderId, PlanSubsteps(orders[orderId]), old(nextId), orderId);
        }
      }
      r := RowsOf(rows, orderId);
    }

    /**
     * update_substep_status: false for an unknown substep id; otherwise records the new state
     * (with time and staff member on completion, cleared on un-completion) and logs the change.
     */
    method UpdateSubstepStatus(orders: map<int, Order>, substepId: int, completed: bool, staffId: int, now: int)
      returns (ok: bool)
      requires Valid()
      modifies this
      ensures Valid()
      ensures ok <==> FindRow(old(rows), substepId).Some?
      ensures nextId == old(nextId)
      ensures !ok ==> rows == old(rows) && logs == old(logs)
      ensures ok ==>
        var j := FindRow(old(rows), substepId).value;
        && rows == old(rows)[j := Mark(old(rows)[j], completed, staffId, now)]
        && logs == old(logs) + ChangeLog(orders, old(rows)[j], completed, staffId)
    {
      var found := FindRow(rows, substepId);
      if found.None? {
        return false;
      }
      var j := found.value;
      var row := rows[j];
      UpdateWellFormed(rows, nextId, j, Mark(row, completed, staffId, now));
      rows := rows[j := Mark(row, completed, staffId, now)];
      var entry := ChangeLog(orders, row, completed, staffId);
      forall k ensures CompletionLogCount(logs + entry, k) <= 1 {
        CompletionLogCountAppend(logs, entry, k);
        if entry != [] {
          assert CompletionLogCount(entry, k) == CompletionLogCount([], k) + 0;
        }
      }
      logs := logs + entry;
      return true;
    }

    /**
     * update_substep_rest: 400 for a non-positive id, 404 for an unknown substep; otherwise
     * updates it and reports the order's progress. The first time every substep of the order
     * is completed, one "substeps completed" entry is logged, and never a second one.
     */
    method UpdateSubstepRest(orders: map<int, Order>, substepId: int, completed: bool, staffId: int, now: int)
      returns (reply: SubstepReply)
      requires Valid()
      modifies this
      ensures Valid()
      ensures substepId <= 0 ==> reply == ErrorReply(400) && rows == old(rows) && logs == old(logs)
      ensures substepId > 0 && FindRow(old(rows), substepId).None? ==>
                reply == ErrorReply(404) && rows == old(rows) && logs == old(logs)
      ensures substepId > 0 && FindRow(old(rows), substepId).Some? ==>
        var j := FindRow(old(rows), substepId).value;
        var row := old(rows)[j];
        && rows == old(rows)[j := Mark(row, completed, staffId, now)]
        && reply == Toggled(row.orderId, Progress(RowsOf(rows, row.orderId)),
                            AllSubstepsCompleted(RowsOf(rows, row.orderId)))
        && var changed := old(logs) + ChangeLog(orders, row, completed, staffId);
           logs == changed +
             (if reply.allCompleted && CompletionLogCount(changed, row.orderId) == 0
              then [SubstepsCompleted(row.orderId, if row.orderId in orders then Some(orders[row.orderId].userId) else None, staffId)]
              else [])
      ensures forall k :: CompletionLogCount(logs, k) <= 1
    {
      if substepId <= 0 {
        return ErrorReply(400);
      }
      var found := FindRow(rows, substepId);
      if found.None? {
        return ErrorReply(404);
      }
      var row := rows[found.value];
      var ok := UpdateSubstepStatus(orders, substepId, completed, staffId, now);
      if !ok {
        return ErrorReply(500);
      }
      var progress := Progress(RowsOf(rows, row.orderId));
      var allCompleted := AllSubstepsCompleted(RowsOf(rows, row.orderId));
      if allCompleted && CompletionLogCount(logs, row.orderId) == 0 {
        var customer := if row.orderId in orders then Some(orders[row.orderId].userId) else None;
        var entry := [SubstepsCompleted(row.orderId, customer, staffId)];
        forall k ensures CompletionLogCount(logs + entry, k) <= 1 {
          CompletionLogCountAppend(logs, entry, k);
          assert CompletionLogCount(entry, k) == CompletionLogCount([], k) + (if k == row.orderId then 1 else 0);
        }
        logs := logs + entry;
      }
      reply := Toggled(row.orderId, progress, allCompleted);
    }

    /** delete_order_substeps: removes every substep of the order and leaves the others as they were. */
    method DeleteOrderSubsteps(orderId: int) returns (ok: bool)
      requires Valid()
      modifies this
      ensures Valid()
      ensures ok
      ensures rows == WithoutOrder(old(rows), orderId)
      ensures RowsOf(rows, orderId) == []
      ensures forall k :: k != orderId ==> RowsOf(rows, k) == RowsOf(old(rows), k)
      ensures logs == old(logs) && nextId == old(nextId)
    {
      DeleteWellFormed(rows, nextId, orderId);
      forall k ensures RowsOf(WithoutOrder(rows, orderId), k) == if k == orderId then [] else RowsOf(rows, k) {
        RowsOfWithoutOrder(rows, orderId, k);
      }
      rows := WithoutOrder(rows, orderId);
      return true;
    }
  }
}
