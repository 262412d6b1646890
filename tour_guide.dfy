/**
 * The AI tour guide: a few built-in guided tours (lists of highlighted page elements), merged
 * with custom tours kept in the `tabesh_ai_custom_tours` option, which can be added and removed
 * by key. The option is a PHP array: an ordered list of entries whose keys are integers or
 * strings, a decimal string key being turned into an integer key.
 */
module TourGuide {
  import opened Wrappers
  import opened PhpValues

  /** One step of a tour; the translated message text is not part of this model. */
  datatype Step = Step(selector: string, arrow: string, pulse: bool)

  /** A PHP array key. */
  datatype Key = IntKey(n: int) | StrKey(s: string)

  datatype Entry = Entry(key: Key, steps: seq<Step>)

  /**
   * The stored option: an array of tours, or null/false (what get_option gives for an option
   * saved as null or false), which is not an array and which PHP turns into an empty array on assignment.
   */
  datatype Stored = NullOrFalse | Tours(entries: seq<Entry>)

  /** The key PHP uses for a string offset: the integer when the string is an integer's canonical decimal form. */
  function KeyOf(s: string): (k: Key)
    ensures k.IntKey? <==> IsIntegerKey(s)
    ensures k.StrKey? ==> k.s == s
    ensures k.IntKey? ==> IntToString(k.n) == s && PhpIntMin <= k.n <= PhpIntMax
  {
    if IsIntegerKey(s) then IntKey(IntVal(s)) else StrKey(s)
  }

  /** A string that starts with neither a digit nor a minus sign stays a string key. */
  lemma WordIsStringKey(s: string)
    requires s != [] && !IsDigit(s[0]) && s[0] != '-'
    ensures KeyOf(s) == StrKey(s)
  {
    var n := IntVal(s);
    if n >= 0 {
      assert IsDigit(NatToString(n)[0]);
    }
  }

  // ------------------------------------------------------------ PHP arrays

  predicate DistinctKeys(es: seq<Entry>)
  {
    forall i, j :: 0 <= i < j < |es| ==> es[i].key != es[j].key
  }

  /** `isset($a[$k]) ? $a[$k] : null`. */
  function Find(es: seq<Entry>, k: Key): (r: Option<seq<Step>>)
    ensures r.Some? <==> exists i :: 0 <= i < |es| && es[i].key == k
  {
    if es == [] then None
    else if es[0].key == k then Some(es[0].steps)
    else
      var rest := Find(es[1..], k);
      assert (exists i :: 0 <= i < |es| && es[i].key == k) <==> (exists i :: 0 <= i < |es[1..]| && es[1..][i].key == k) by {
        if exists i :: 0 <= i < |es| && es[i].key == k {
          var i :| 0 <= i < |es| && es[i].key == k;
          assert es[1..][i - 1].key == k;
        }
      }
      rest
  }

  /** `$a[$k] = $v`: the entry with key `k` replaced in place, or appended when there is none. */
  function Put(es: seq<Entry>, k: Key, v: seq<Step>): (r: seq<Entry>)
    requires DistinctKeys(es)
    ensures DistinctKeys(r)
    ensures Find(r, k) == Some(v)
    ensures forall k' :: k' != k ==> Find(r, k') == Find(es, k')
  {
    if es == [] then [Entry(k, v)]
    else if es[0].key == k then
      assert forall k' :: k' != k ==> Find(es, k') == Find(es[1..], k');
      [Entry(k, v)] + es[1..]
    else
      var rest := Put(es[1..], k, v);
      var r := [es[0]] + rest;
      assert forall i :: 0 <= i < |es[1..]| ==> es[1..][i].key != es[0].key;
      assert Find(rest, es[0].key).None?;
      assert r[1..] == rest;
      r
  }

  /** `unset($a[$k])`: every other entry kept, in order. */
  function Remove(es: seq<Entry>, k: Key): (r: seq<Entry>)
    requires DistinctKeys(es)
    ensures DistinctKeys(r)
    ensures Find(r, k) == None
    ensures forall k' :: k' != k ==> Find(r, k') == Find(es, k')
  {
    if es == [] then []
    else if es[0].key == k then
      assert forall k' :: k' != k ==> Find(es, k') == Find(es[1..], k');
      es[1..]
    else
      var rest := Remove(es[1..], k);
      var r := [es[0]] + rest;
      assert r[1..] == rest;
      assert forall i :: 0 <= i < |es[1..]| ==> es[1..][i].key != es[0].key;
      assert Find(rest, es[0].key).None?;
      r
  }

  // ------------------------------------------------------------ the tours

  const OrderFormSteps: seq<Step> := [
    Step("#book_title", "top", true),
    Step("#book_size", "left", true),
    Step("#paper_type", "left", true),
    Step("#page_count", "top", true),
    Step("#quantity", "top", true),
    Step("button[type=\"submit\"]", "bottom", true)
  ]

  const BuiltinTours: seq<Entry> := [
    Entry(StrKey("order-form"), OrderFormSteps),
    Entry(StrKey("cart"), [Step(".tabesh-cart-button", "left", true)]),
    Entry(StrKey("dashboard"), [Step(".tabesh-user-dashboard", "top", true)])
  ]

  lemma BuiltinToursDistinct()
    ensures DistinctKeys(BuiltinTours)
  {
  }

  /**
   * array_merge($tours, $custom) as written, for a first array with string keys only: a string
   * key of the custom array overwrites or appends, an integer key is renumbered 0, 1, 2, ...
   */
  function MergeFrom(acc: seq<Entry>, custom: seq<Entry>, next: nat): (r: seq<Entry>)
    requires DistinctKeys(acc)
    requires forall n :: IntKey(n) in Keys(acc) ==> n < next
    ensures DistinctKeys(r)
    decreases |custom|
  {
    if custom == [] then acc
    else
      var e := custom[0];
      if e.key.IntKey? then
        var acc' := Put(acc, IntKey(next), e.steps);
        KeysOfPut(acc, IntKey(next), e.steps);
        MergeFrom(acc', custom[1..], next + 1)
      else
        var acc' := Put(acc, e.key, e.steps);
        KeysOfPut(acc, e.key, e.steps);
        MergeFrom(acc', custom[1..], next)
  }

  ghost function Keys(es: seq<Entry>): set<Key>
  {
    set i | 0 <= i < |es| :: es[i].key
  }

  lemma KeysOfPut(es: seq<Entry>, k: Key, v: seq<Step>)
    requires DistinctKeys(es)
    ensures Keys(Put(es, k, v)) == Keys(es) + {k}
  {
    var r := Put(es, k, v);
    forall k' ensures k' in Keys(r) <==> k' in Keys(es) || k' == k {
      if k' != k {
        assert Find(r, k') == Find(es, k');
        if k' in Keys(r) {
          var i :| 0 <= i < |r| && r[i].key == k';
          assert Find(r, k').Some?;
        }
        if k' in Keys(es) {
          var i :| 0 <= i < |es| && es[i].key == k';
          assert Find(es, k').Some?;
          var j :| 0 <= j < |r| && r[j].key == k';
        }
      } else {
        var j :| 0 <= j < |r| && r[j].key == k;
      }
    }
  }

  /** array_replace($tours, $custom): every custom entry set under its own key. */
  function ReplaceFrom(acc: seq<Entry>, custom: seq<Entry>): (r: seq<Entry>)
    requires DistinctKeys(acc)
    ensures DistinctKeys(r)
    decreases |custom|
  {
    if custom == [] then acc else ReplaceFrom(Put(acc, custom[0].key, custom[0].steps), custom[1..])
  }

  /** A custom tour, when there is one under the key, wins; otherwise the built-in one stands. */
  lemma {:induction false} ReplaceFromFind(acc: seq<Entry>, custom: seq<Entry>, k: Key)
    requires DistinctKeys(acc) && DistinctKeys(custom)
    ensures Find(ReplaceFrom(acc, custom), k) == if Find(custom, k).Some? then Find(custom, k) else Find(acc, k)
    decreases |custom|
  {
    if custom != [] {
      var acc' := Put(acc, custom[0].key, custom[0].steps);
      assert DistinctKeys(custom[1..]) by {
        forall i, j | 0 <= i < j < |custom[1..]| ensures custom[1..][i].key != custom[1..][j].key {
          assert custom[1..][i] == custom[i + 1] && custom[1..][j] == custom[j + 1];
        }
      }
      ReplaceFromFind(acc', custom[1..], k);
      if custom[0].key == k {
        assert forall i :: 0 <= i < |custom[1..]| ==> custom[1..][i].key != k by {
          forall i | 0 <= i < |custom[1..]| ensures custom[1..][i].key != k {
            assert custom[1..][i] == custom[i + 1];
          }
        }
      }
    }
  }

  /** The custom tours get_tour_steps merges: the stored array, or nothing when the option is not an array. */
  function CustomTours(stored: Stored): seq<Entry>
  {
    if stored.Tours? then stored.entries else []
  }

  /** Dropping the first entry keeps keys distinct and changes no lookup except the first key's. */
  lemma DistinctTail(es: seq<Entry>)
    requires DistinctKeys(es) && es != []
    ensures DistinctKeys(es[1..])
    ensures Find(es[1..], es[0].key) == None
  {
    forall i, j | 0 <= i < j < |es[1..]| ensures es[1..][i].key != es[1..][j].key {
      assert es[1..][i] == es[i + 1] && es[1..][j] == es[j + 1];
    }
    forall i | 0 <= i < |es[1..]| ensures es[1..][i].key != es[0].key {
      assert es[1..][i] == es[i + 1];
    }
  }

  /** Under a string key array_merge agrees with the key-by-key overlay: a custom tour wins, else the first array's. */
  lemma {:induction false} MergeFromFindString(acc: seq<Entry>, custom: seq<Entry>, next: nat, s: string)
    requires DistinctKeys(acc) && DistinctKeys(custom)
    requires forall n :: IntKey(n) in Keys(acc) ==> n < next
    ensures Find(MergeFrom(acc, custom, next), StrKey(s))
            == if Find(custom, StrKey(s)).Some? then Find(custom, StrKey(s)) else Find(acc, StrKey(s))
    decreases |custom|
  {
    if custom != [] {
      var e := custom[0];
      var k := if e.key.IntKey? then IntKey(next) else e.key;
      var next' := if e.key.IntKey? then next + 1 else next;
      var acc' := Put(acc, k, e.steps);
      KeysOfPut(acc, k, e.steps);
      DistinctTail(custom);
      MergeFromFindString(acc', custom[1..], next', s);
      assert MergeFrom(acc, custom, next) == MergeFrom(acc', custom[1..], next');
    }
  }

  /** get_tour_steps with array_merge as written; for a target that is not an integer key it agrees with the overlay. */
  function TourStepsAsWritten(stored: Stored, target: string): (steps: seq<Step>)
    requires DistinctKeys(CustomTours(stored))
    ensures KeyOf(target).StrKey? ==> steps == TourSteps(stored, target)
  {
    BuiltinToursDistinct();
    var merged := MergeFrom(BuiltinTours, CustomTours(stored), 0);
    assert KeyOf(target).StrKey? ==> Find(merged, KeyOf(target)) == Find(ReplaceFrom(BuiltinTours, CustomTours(stored)), KeyOf(target)) by {
      if KeyOf(target).StrKey? {
        MergeFromFindString(BuiltinTours, CustomTours(stored), 0, target);
        ReplaceFromFind(BuiltinTours, CustomTours(stored), KeyOf(target));
      }
    }
    match Find(merged, KeyOf(target))
    case Some(s) => s
    case None => []
  }

  /**
   * get_tour_steps with the custom tours laid over the built-in ones key by key: a custom tour
   * under the target's key wins, then a built-in one, and an unknown target has no steps.
   */
  function TourSteps(stored: Stored, target: string): (steps: seq<Step>)
    requires DistinctKeys(CustomTours(stored))
    ensures Find(CustomTours(stored), KeyOf(target)).Some? ==> steps == Find(CustomTours(stored), KeyOf(target)).value
    ensures Find(CustomTours(stored), KeyOf(target)).None? && Find(BuiltinTours, KeyOf(target)).Some? ==>
              steps == Find(BuiltinTours, KeyOf(target)).value
    ensures Find(CustomTours(stored), KeyOf(target)).None? && Find(BuiltinTours, KeyOf(target)).None? ==> steps == []
  {
    var k := KeyOf(target);
    BuiltinToursDistinct();
    ReplaceFromFind(BuiltinTours, CustomTours(stored), k);
    match Find(ReplaceFrom(BuiltinTours, CustomTours(stored)), k)
    case Some(s) => s
    case None => []
  }

  /** Without a custom 'order-form' tour, its six built-in steps end at the submit button. */
  lemma OrderFormTour(stored: Stored)
    requires DistinctKeys(CustomTours(stored))
    requires Find(CustomTours(stored), StrKey("order-form")).None?
    ensures |TourSteps(stored, "order-form")| == 6
    ensures TourSteps(stored, "order-form")[5].selector == "button[type=\"submit\"]"
  {
    WordIsStringKey("order-form");
  }

  /** A stored value that is not an array is ignored: only the built-in tours are found. */
  lemma NonArrayOptionIgnored(target: string)
    ensures TourSteps(NullOrFalse, target) == match Find(BuiltinTours, KeyOf(target)) case Some(s) => s case None => []
  {
  }

  /** The tours the option holds after `$custom[$k] = $steps` on what get_option returned. */
  function WithTour(stored: Stored, k: Key, steps: seq<Step>): (r: seq<Entry>)
    requires DistinctKeys(CustomTours(stored))
    ensures DistinctKeys(r) && Find(r, k) == Some(steps)
    ensures forall k' :: k' != k ==> Find(r, k') == Find(CustomTours(stored), k')
  {
    Put(CustomTours(stored), k, steps)
  }

  /** A tour added under a target is the tour get_tour_steps finds for the sanitized target. */
  lemma AddedTourIsFound(stored: Stored, target: string, steps: seq<Step>)
    requires DistinctKeys(CustomTours(stored))
    ensures TourSteps(Tours(WithTour(stored, KeyOf(SanitizeKey(target)), steps)), SanitizeKey(target)) == steps
  {
  }

  /**
   * As written, a tour added under a numeric id such as "7" is stored under the integer key 7,
   * renumbered to 0 by array_merge, and so not found under its id.
   */
  lemma NumericTourLostAsWritten(steps: seq<Step>)
    requires steps != []
    ensures TourStepsAsWritten(Tours(WithTour(Tours([]), KeyOf(SanitizeKey("7")), steps)), "7") == []
    ensures TourStepsAsWritten(Tours(WithTour(Tours([]), KeyOf(SanitizeKey("7")), steps)), "0") == steps
    ensures TourSteps(Tours(WithTour(Tours([]), KeyOf(SanitizeKey("7")), steps)), "7") == steps
  {
    assert SanitizeKey("7") == "7" by {
      SanitizeKeyKeeps("7");
    }
    assert KeyOf("7") == IntKey(7) by {
      assert IntToString(7) == "7";
      KeyOfDecimal(7);
    }
    assert KeyOf("0") == IntKey(0) by {
      assert IntToString(0) == "0";
      KeyOfDecimal(0);
    }
    var stored := Tours(WithTour(Tours([]), IntKey(7), steps));
    assert CustomTours(stored) == [Entry(IntKey(7), steps)] by {
      assert Put([], IntKey(7), steps) == [Entry(IntKey(7), steps)];
    }
    BuiltinToursDistinct();
    BuiltinToursStringKeys();
    var merged := Put(BuiltinTours, IntKey(0), steps);
    assert MergeFrom(BuiltinTours, CustomTours(stored), 0) == merged by {
      MergeOneNumeric(BuiltinTours, 7, steps);
    }
    assert Find(merged, IntKey(7)) == None by {
      NoIntKeyFound(BuiltinTours, 7);
    }
    AddedTourIsFound(Tours([]), "7", steps);
  }

  /** The key of the decimal form of an integer in PHP's range is that integer. */
  lemma KeyOfDecimal(n: int)
    requires PhpIntMin <= n <= PhpIntMax
    ensures KeyOf(IntToString(n)) == IntKey(n)
  {
    IntToStringIsIntegerKey(n);
    IntValOfIntToString(n);
  }

  lemma BuiltinToursStringKeys()
    ensures forall i :: 0 <= i < |BuiltinTours| ==> BuiltinTours[i].key.StrKey?
  {
  }

  lemma NoIntKeyFound(es: seq<Entry>, n: int)
    requires forall i :: 0 <= i < |es| ==> es[i].key.StrKey?
    ensures Find(es, IntKey(n)) == None
  {
  }

  /** Merging a single tour with an integer key into string-keyed tours files it under 0. */
  lemma MergeOneNumeric(acc: seq<Entry>, n: int, steps: seq<Step>)
    requires DistinctKeys(acc)
    requires forall i :: 0 <= i < |acc| ==> acc[i].key.StrKey?
    ensures forall n :: IntKey(n) in Keys(acc) ==> n < 0
    ensures MergeFrom(acc, [Entry(IntKey(n), steps)], 0) == Put(acc, IntKey(0), steps)
  {
    var custom := [Entry(IntKey(n), steps)];
    KeysOfPut(acc, IntKey(0), steps);
    assert custom[1..] == [];
  }

  // ------------------------------------------------------------ the option, changed in place

  /** The `tabesh_ai_custom_tours` option and the operations that rewrite it. */
  class TourOption {
    var stored: Stored

    ghost predicate Valid()
      reads this
    {
      DistinctKeys(CustomTours(stored))
    }

    constructor(initial: Stored)
      requires DistinctKeys(CustomTours(initial))
      ensures Valid() && stored == initial
    {
      stored := initial;
    }

    /**
     * get_tour_steps on the current option, with the corrected overlay lookup (TourSteps)
     * rather than the array_merge of the code as written (TourStepsAsWritten); the two agree
     * on every target that is not an integer key.
     */
    function Steps(target: string): (steps: seq<Step>)
      reads this
      requires Valid()
      ensures KeyOf(target).StrKey? ==> steps == TourStepsAsWritten(stored, target)
      ensures Find(CustomTours(stored), KeyOf(target)).None? && Find(BuiltinTours, KeyOf(target)).None? ==> steps == []
      ensures Find(CustomTours(stored), KeyOf(target)).Some? ==> steps == Find(CustomTours(stored), KeyOf(target)).value
    {
      TourSteps(stored, target)
    }

    /**
     * add_custom_tour: the steps set under sanitize_key(target); update_option reports false,
     * writing nothing, when the value is unchanged or the write fails (`writeOk` false).
     */
    method AddCustomTour(target: string, steps: seq<Step>, writeOk: bool) returns (ok: bool)
      requires Valid()
      modifies this
      ensures Valid()
      ensures ok <==> writeOk && Tours(WithTour(old(stored), KeyOf(SanitizeKey(target)), steps)) != old(stored)
      ensures stored == if ok then Tours(WithTour(old(stored), KeyOf(SanitizeKey(target)), steps)) else old(stored)
    {
      var updated := Tours(WithTour(stored, KeyOf(SanitizeKey(target)), steps));
      if updated == stored || !writeOk {
        ok := false;
      } else {
        stored := updated;
        ok := true;
      }
    }

    /**
     * remove_custom_tour: false with nothing written when no tour is stored under the target;
     * otherwise that one key is removed and the result is update_option's.
     */
    method RemoveCustomTour(target: string, writeOk: bool) returns (ok: bool)
      requires Valid()
      modifies this
      ensures Valid()
      ensures Find(CustomTours(old(stored)), KeyOf(target)).None? ==> !ok && stored == old(stored)
      ensures Find(CustomTours(old(stored)), KeyOf(target)).Some? ==>
                ok == writeOk
                && stored == if writeOk then Tours(Remove(CustomTours(old(stored)), KeyOf(target))) else old(stored)
    {
      var k := KeyOf(target);
      if stored.Tours? && Find(stored.entries, k).Some? {
        if writeOk {
          stored := Tours(Remove(stored.entries, k));
          ok := true;
        } else {
          ok := false;
        }
      } else {
        ok := false;
      }
    }
  }

  /** Removing a stored tour leaves every other custom tour as it was and the removed one gone. */
  lemma RemoveTouchesOnlyItsKey(stored: Stored, target: string, other: Key)
    requires DistinctKeys(CustomTours(stored)) && other != KeyOf(target)
    ensures Find(Remove(CustomTours(stored), KeyOf(target)), other) == Find(CustomTours(stored), other)
    ensures Find(Remove(CustomTours(stored), KeyOf(target)), KeyOf(target)).None?
  {
  }
}
