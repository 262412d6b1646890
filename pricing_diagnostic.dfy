/**
 * The pricing-cycle diagnostic page: it reads the product's book sizes, classifies the stored
 * pricing matrices by whether their key decodes to a book size, lines the product sizes up
 * against the sizes the pricing engine reports, and lists the problems it finds. The pricing
 * engine and the constraint manager are not part of this model: what they report is a parameter.
 */
module PricingDiagnostic {
  import opened Wrappers
  import opened PhpValues
  import opened KeyEncoding

  /** The `book_sizes` settings row: absent, or its raw text with the array it decodes to (None when it does not decode to an array). */
  datatype SizesSetting = NoRow | Stored(raw: string, decoded: Option<seq<string>>)

  /** A row of `SELECT setting_key, setting_value ... LIKE 'pricing_matrix_%'`. */
  datatype MatrixRow = MatrixRow(key: string, value: string)

  /** An entry of `$configured_sizes`. */
  datatype ConfiguredSize = ConfiguredSize(bookSize: string, safeKey: string, fullKey: string)

  datatype Issue = NoProductSizes | NoPricingMatrices | V2Disabled | NoAvailableSizes | InvalidSizesStored

  datatype Report = Report(
    productSizes: seq<string>,
    configured: seq<ConfiguredSize>,
    corrupted: seq<string>,
    inBoth: seq<string>,
    onlyParam: seq<string>,
    onlyPrice: seq<string>,
    issues: seq<Issue>)

  // ------------------------------------------------------------ step 1: product sizes

  /** The product sizes: the decoded array when the stored text is truthy and decodes to an array, otherwise empty. */
  function ProductBookSizes(setting: SizesSetting): (sizes: seq<string>)
    ensures sizes != [] ==> setting.Stored? && !EmptyString(setting.raw) && setting.decoded == Some(sizes)
    ensures setting.Stored? && !EmptyString(setting.raw) && setting.decoded.Some? ==> sizes == setting.decoded.value
  {
    match setting
    case NoRow => []
    case Stored(raw, decoded) =>
      if EmptyString(raw) then []
      else if decoded.Some? then decoded.value
      else []
  }

  // ------------------------------------------------------------ step 2: matrix keys

  /** `r` is what is left of `s` after some of its characters are deleted: the rest, in order. */
  predicate Subsequence(r: string, s: string)
    decreases |s|
  {
    if r == [] then true
    else if s == [] then false
    else (r[0] == s[0] && Subsequence(r[1..], s[1..])) || Subsequence(r, s[1..])
  }

  /** A subsequence of a suffix of `s` is a subsequence of `s`. */
  lemma {:induction false} SubsequenceOfSuffix(r: string, s: string, k: nat)
    requires k <= |s| && Subsequence(r, s[k..])
    ensures Subsequence(r, s)
    decreases k
  {
    if k > 0 {
      assert s[1..][k - 1..] == s[k..];
      SubsequenceOfSuffix(r, s[1..], k - 1);
    }
  }

  /** `pat` occurs in `s` at position `i`. */
  predicate OccursAt(s: string, pat: string, i: int)
  {
    0 <= i && i + |pat| <= |s| && s[i..i + |pat|] == pat
  }

  /**
   * str_replace($pat, '', $s): every non-overlapping occurrence, scanning left to right,
   * removed. Only characters are removed, the rest keep their order, and a string in which
   * `pat` does not occur is left as it is.
   */
  function StripAll(s: string, pat: string): (r: string)
    requires pat != []
    ensures |r| <= |s|
    ensures Subsequence(r, s)
    ensures (forall i :: !OccursAt(s, pat, i)) ==> r == s
    decreases |s|
  {
    if |s| == 0 then []
    else if |pat| <= |s| && s[..|pat|] == pat then
      var r := StripAll(s[|pat|..], pat);
      SubsequenceOfSuffix(r, s, |pat|);
      assert OccursAt(s, pat, 0);
      r
    else
      var rest := StripAll(s[1..], pat);
      assert (forall i :: !OccursAt(s, pat, i)) ==> forall i :: !OccursAt(s[1..], pat, i) by {
        forall i | OccursAt(s[1..], pat, i)
          ensures OccursAt(s, pat, i + 1)
        {
          assert s[i + 1..i + 1 + |pat|] == s[1..][i..i + |pat|];
        }
      }
      [s[0]] + rest
  }

  /** The key with the prefix removed wherever it occurs. */
  function SafeKey(key: string): string
  {
    StripAll(key, MatrixKeyPrefix)
  }

  /** decode_book_size_key as the strict base64 decode, with a rejected key read as the empty string. */
  function SizeOf(safeKey: string): string
  {
    match Decode(safeKey)
    case Some(size) => size
    case None => []
  }

  predicate Readable(row: MatrixRow)
  {
    !EmptyString(SizeOf(SafeKey(row.key)))
  }

  /** The configured list the loop builds from `rows`, in row order. */
  function ConfiguredOf(rows: seq<MatrixRow>): (r: seq<ConfiguredSize>)
    ensures |r| <= |rows|
    ensures forall c :: c in r ==>
              !EmptyString(c.bookSize) && c.safeKey == SafeKey(c.fullKey) && c.bookSize == SizeOf(c.safeKey)
              && exists row :: row in rows && row.key == c.fullKey
  {
    if rows == [] then []
    else
      var last := rows[|rows| - 1];
      var entry := if Readable(last) then [ConfiguredSize(SizeOf(SafeKey(last.key)), SafeKey(last.key), last.key)] else [];
      var front := ConfiguredOf(rows[..|rows| - 1]);
      assert forall row :: row in rows[..|rows| - 1] ==> row in rows;
      front + entry
  }

  /** The corrupted list the loop builds from `rows`, in row order. */
  function CorruptedOf(rows: seq<MatrixRow>): (r: seq<string>)
    ensures |r| <= |rows|
    ensures forall k :: k in r ==> EmptyString(SizeOf(SafeKey(k))) && exists row :: row in rows && row.key == k
  {
    if rows == [] then []
    else
      var last := rows[|rows| - 1];
      var front := CorruptedOf(rows[..|rows| - 1]);
      assert forall row :: row in rows[..|rows| - 1] ==> row in rows;
      front + (if Readable(last) then [] else [last.key])
  }

  /** The foreach over the matrix rows, appending each to the configured or the corrupted list. */
  method ClassifyMatrices(rows: seq<MatrixRow>) returns (configured: seq<ConfiguredSize>, corrupted: seq<string>)
    ensures configured == ConfiguredOf(rows)
    ensures corrupted == CorruptedOf(rows)
  {
    configured := [];
    corrupted := [];
    for i := 0 to |rows|
      invariant configured == ConfiguredOf(rows[..i])
      invariant corrupted == CorruptedOf(rows[..i])
    {
      assert rows[..i + 1][..i] == rows[..i];
      var key := rows[i].key;
      var safeKey := StripAll(key, MatrixKeyPrefix);
      var bookSize := SizeOf(safeKey);
      if !EmptyString(bookSize) {
        configured := configured + [ConfiguredSize(bookSize, safeKey, key)];
      } else {
        corrupted := corrupted + [key];
      }
    }
    assert rows[..|rows|] == rows;
  }

  /** Every row is counted once: in the configured list or in the corrupted one. */
  lemma {:induction false} ClassificationCountsEveryRow(rows: seq<MatrixRow>)
    ensures |ConfiguredOf(rows)| + |CorruptedOf(rows)| == |rows|
  {
    if rows != [] {
      ClassificationCountsEveryRow(rows[..|rows| - 1]);
    }
  }

  /** A string with no underscore holds no occurrence of the prefix, so nothing is stripped. */
  lemma {:induction false} StripLeavesUnderscoreFree(t: string)
    requires forall i :: 0 <= i < |t| ==> t[i] != '_'
    ensures StripAll(t, MatrixKeyPrefix) == t
    decreases |t|
  {
    if |t| > 0 {
      assert !(|MatrixKeyPrefix| <= |t| && t[..|MatrixKeyPrefix|] == MatrixKeyPrefix) by {
        if |MatrixKeyPrefix| <= |t| {
          assert MatrixKeyPrefix[7] == '_';
          assert t[..|MatrixKeyPrefix|][7] == t[7];
        }
      }
      StripLeavesUnderscoreFree(t[1..]);
      assert t == [t[0]] + t[1..];
    }
  }

  /** The key under which a non-empty book size is stored is read back as that size. */
  lemma StoredKeyIsConfigured(size: ByteString, value: string)
    requires !EmptyString(size)
    ensures ConfiguredOf([MatrixRow(MatrixKey(size), value)]) == [ConfiguredSize(size, Encode(size), MatrixKey(size))]
    ensures CorruptedOf([MatrixRow(MatrixKey(size), value)]) == []
  {
    var k := MatrixKey(size);
    assert k[..|MatrixKeyPrefix|] == MatrixKeyPrefix;
    assert k[|MatrixKeyPrefix|..] == Encode(size);
    StripLeavesUnderscoreFree(Encode(size));
    assert SafeKey(k) == Encode(size);
    DecodeEncode(size);
    assert SizeOf(SafeKey(k)) == size;
    var one := [MatrixRow(k, value)];
    assert one[..0] == [];
  }

  // ------------------------------------------------------------ step 5: alignment

  /** The elements of `s`, in order, whose membership in `t` is `inT` (in_array with strict comparison). */
  function Keep(s: seq<string>, t: seq<string>, inT: bool): (r: seq<string>)
    ensures forall x :: x in r <==> x in s && (x in t) == inT
  {
    if s == [] then []
    else
      var front := s[..|s| - 1];
      assert s == front + [s[|s| - 1]];
      Keep(front, t, inT) + (if (s[|s| - 1] in t) == inT then [s[|s| - 1]] else [])
  }

  /** `a` is `b` with some elements left out, the rest in their original order. */
  ghost predicate SubsequenceOf(a: seq<string>, b: seq<string>)
    decreases |b|
  {
    if a == [] then true
    else if b == [] then false
    else (a[|a| - 1] == b[|b| - 1] && SubsequenceOf(a[..|a| - 1], b[..|b| - 1])) || SubsequenceOf(a, b[..|b| - 1])
  }

  lemma {:induction false} KeepKeepsOrder(s: seq<string>, t: seq<string>, inT: bool)
    ensures SubsequenceOf(Keep(s, t, inT), s)
    decreases |s|
  {
    if s != [] {
      var front := s[..|s| - 1];
      KeepKeepsOrder(front, t, inT);
      var r := Keep(s, t, inT);
      if (s[|s| - 1] in t) == inT {
        assert r[..|r| - 1] == Keep(front, t, inT);
      } else {
        assert r == Keep(front, t, inT);
      }
    }
  }

  /** Each product size lands in exactly one of the two lists. */
  lemma {:induction false} AlignmentPartitions(s: seq<string>, t: seq<string>)
    ensures multiset(Keep(s, t, true)) + multiset(Keep(s, t, false)) == multiset(s)
    decreases |s|
  {
    if s != [] {
      var front := s[..|s| - 1];
      AlignmentPartitions(front, t);
      assert s == front + [s[|s| - 1]];
    }
  }

  /** No price-only size exists exactly when every engine size is a product size. */
  lemma NoPriceOnlySizes(engine: seq<string>, product: seq<string>)
    ensures Keep(engine, product, false) == [] <==> forall x :: x in engine ==> x in product
  {
    if Keep(engine, product, false) != [] {
      assert Keep(engine, product, false)[0] in Keep(engine, product, false);
    }
  }

  /** The two foreach loops building `sizes_in_both`, `sizes_only_param` and `sizes_only_price`. */
  method AlignSizes(product: seq<string>, engine: seq<string>) returns (inBoth: seq<string>, onlyParam: seq<string>, onlyPrice: seq<string>)
    ensures inBoth == Keep(product, engine, true)
    ensures onlyParam == Keep(product, engine, false)
    ensures onlyPrice == Keep(engine, product, false)
  {
    inBoth := [];
    onlyParam := [];
    for i := 0 to |product|
      invariant inBoth == Keep(product[..i], engine, true)
      invariant onlyParam == Keep(product[..i], engine, false)
    {
      assert product[..i + 1][..i] == product[..i];
      if product[i] in engine {
        inBoth := inBoth + [product[i]];
      } else {
        onlyParam := onlyParam + [product[i]];
      }
    }
    assert product[..|product|] == product;
    onlyPrice := [];
    for j := 0 to |engine|
      invariant onlyPrice == Keep(engine[..j], product, false)
    {
      assert engine[..j + 1][..j] == engine[..j];
      if engine[j] !in product {
        onlyPrice := onlyPrice + [engine[j]];
      }
    }
    assert engine[..|engine|] == engine;
  }

  // ------------------------------------------------------------ final verdict

  /** The issues list, one check at a time in the page's order. */
  method CollectIssues(product: seq<string>, engine: seq<string>, v2Enabled: bool, available: seq<string>, onlyPrice: seq<string>)
    returns (issues: seq<Issue>)
    ensures NoProductSizes in issues <==> product == []
    ensures NoPricingMatrices in issues <==> engine == []
    ensures V2Disabled in issues <==> !v2Enabled
    ensures NoAvailableSizes in issues <==> available == []
    ensures InvalidSizesStored in issues <==> onlyPrice != []
    ensures issues == [] <==> product != [] && engine != [] && v2Enabled && available != [] && onlyPrice == []
    ensures |issues| <= 5
  {
    issues := [];
    if product == [] {
      issues := issues + [NoProductSizes];
    }
    if engine == [] {
      issues := issues + [NoPricingMatrices];
    }
    if !v2Enabled {
      issues := issues + [V2Disabled];
    }
    if available == [] {
      issues := issues + [NoAvailableSizes];
    }
    if onlyPrice != [] {
      issues := issues + [InvalidSizesStored];
    }
  }

  /**
   * The whole page: `available` is None when the constraint manager throws, which the page
   * treats as no available sizes.
   */
  method Diagnose(setting: SizesSetting, rows: seq<MatrixRow>, engineSizes: seq<string>, v2Enabled: bool, available: Option<seq<string>>)
    returns (report: Report)
    ensures report.productSizes == ProductBookSizes(setting)
    ensures report.configured == ConfiguredOf(rows) && report.corrupted == CorruptedOf(rows)
    ensures report.inBoth == Keep(report.productSizes, engineSizes, true)
    ensures report.onlyParam == Keep(report.productSizes, engineSizes, false)
    ensures report.onlyPrice == Keep(engineSizes, report.productSizes, false)
    ensures NoProductSizes in report.issues <==> report.productSizes == []
    ensures NoPricingMatrices in report.issues <==> engineSizes == []
    ensures V2Disabled in report.issues <==> !v2Enabled
    ensures NoAvailableSizes in report.issues <==> available.None? || available.value == []
    ensures InvalidSizesStored in report.issues <==> exists x :: x in engineSizes && x !in report.productSizes
    ensures |report.issues| <= 5
    ensures report.issues == [] <==>
              report.productSizes != [] && engineSizes != [] && v2Enabled
              && available.Some? && available.value != []
              && forall x :: x in engineSizes ==> x in report.productSizes
  {
    var product := ProductBookSizes(setting);
    var configured: seq<ConfiguredSize> := [];
    var corrupted: seq<string> := [];
    if rows != [] {
      configured, corrupted := ClassifyMatrices(rows);
    }
    var availableSizes := if available.Some? then available.value else [];
    var inBoth, onlyParam, onlyPrice := AlignSizes(product, engineSizes);
    var issues := CollectIssues(product, engineSizes, v2Enabled, availableSizes, onlyPrice);
    NoPriceOnlySizes(engineSizes, product);
    report := Report(product, configured, corrupted, inBoth, onlyParam, onlyPrice, issues);
  }
}
