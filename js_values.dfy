/**
 * The string operations of the browser scripts that differ from their PHP counterparts:
 * String.prototype.trim removes ECMAScript white space and line terminators, a wider set than
 * PHP's trim().
 */
module JsValues {
  import opened PhpValues

  /**
   * The characters JavaScript's String.prototype.trim removes: the white space and line
   * terminators of ECMAScript (tab, line feed, vertical tab, form feed, carriage return, space,
   * no-break space, the Unicode space separators, the line and paragraph separators and the
   * byte order mark).
   */
  predicate IsJsSpace(c: char)
  {
    var n := c as int;
    (9 <= n <= 13) || n == 0x20 || n == 0xA0 || n == 0x1680 || (0x2000 <= n <= 0x200A)
    || n == 0x2028 || n == 0x2029 || n == 0x202F || n == 0x205F || n == 0x3000 || n == 0xFEFF
  }

  /** String.prototype.trim: the characters of IsJsSpace removed from both ends, and only there. */
  function JsTrim(s: string): (r: string)
    ensures TrimmedBy(s, r, IsJsSpace)
  {
    TrimWith(s, IsJsSpace)
  }

  /** Trimming twice is trimming once. */
  lemma JsTrimIdempotent(s: string)
    ensures JsTrim(JsTrim(s)) == JsTrim(s)
  {
    TrimWithOfTrimmed(JsTrim(s), IsJsSpace);
  }

  /** A text made only of a no-break space is blank to String.prototype.trim, though PHP's trim() keeps it. */
  lemma NoBreakSpaceIsBlank(nb: string)
    requires nb == [0xA0 as char]
    ensures JsTrim(nb) == []
    ensures Trim(nb) == nb
  {
    assert IsJsSpace(nb[0]) && !IsTrimChar(nb[0]);
    TrimWithOfTrimmed(nb, IsTrimChar);
  }

}
