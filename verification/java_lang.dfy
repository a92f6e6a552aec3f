/**
 * The few pieces of `java.lang` the services and the validation annotations
 * rely on: nullable strings, 32-bit `int`, `String.trim()`,
 * `Character.isWhitespace` and `String.length()` counted in UTF-16 units.
 */
module JavaLang {
  import opened Results

  /** A Java `String` field or argument, which may be `null`. */
  type Text = Option<string>

  /** Java's 32-bit `int`. */
  newtype int32 = x: int | -0x8000_0000 <= x < 0x8000_0000

  const TwoTo32: int := 0x1_0000_0000

  /**
   * Two's-complement wrap-around of an unbounded integer into an `int`, which
   * is what repeated `int` additions (`IntStream.sum()`) produce.
   */
  function Wrap32(x: int): (r: int32)
    ensures (r as int - x) % TwoTo32 == 0
    ensures -0x8000_0000 <= x < 0x8000_0000 ==> r as int == x
  {
    ((x + 0x8000_0000) % TwoTo32 - 0x8000_0000) as int32
  }

  // ---------------------------------------------------------------------------
  // String.trim()

  /** `trim()` removes every leading and trailing char whose code is at most U+0020. */
  predicate IsTrimmable(c: char) {
    c <= ' '
  }

  /**
   * The first loop of `trim()`: from `i`, skip trimmable chars; the index of
   * the first char kept, or `|s|` when there is none.
   */
  function TrimStart(s: string, i: nat): (k: nat)
    requires i <= |s|
    ensures i <= k <= |s|
    ensures forall j :: i <= j < k ==> IsTrimmable(s[j])
    ensures k < |s| ==> !IsTrimmable(s[k])
    decreases |s| - i
  {
    if i < |s| && IsTrimmable(s[i]) then TrimStart(s, i + 1) else i
  }

  /**
   * The second loop of `trim()`: from `hi` down to `lo`, skip trimmable chars;
   * the index just past the last char kept, or `lo` when there is none.
   */
  function TrimEnd(s: string, lo: nat, hi: nat): (k: nat)
    requires lo <= hi <= |s|
    ensures lo <= k <= hi
    ensures forall j :: k <= j < hi ==> IsTrimmable(s[j])
    ensures k > lo ==> !IsTrimmable(s[k - 1])
    decreases hi - lo
  {
    if lo < hi && IsTrimmable(s[hi - 1]) then TrimEnd(s, lo, hi - 1) else hi
  }

  /**
   * `String.trim()`: the slice of `s` that starts after its trimmable prefix
   * and ends before its trimmable suffix, with no trimmable char at either end.
   */
  function Trim(s: string): (r: string)
    ensures var a := TrimStart(s, 0);
            && a + |r| <= |s|
            && r == s[a..a + |r|]
            && (forall i :: 0 <= i < a ==> IsTrimmable(s[i]))
            && (forall i :: a + |r| <= i < |s| ==> IsTrimmable(s[i]))
    ensures r == [] || (!IsTrimmable(r[0]) && !IsTrimmable(r[|r| - 1]))
  {
    var a := TrimStart(s, 0);
    s[a..TrimEnd(s, a, |s|)]
  }

  /** `trim()` leaves nothing exactly when every char of the string is trimmable. */
  lemma TrimEmptyIff(s: string)
    ensures Trim(s) == [] <==> forall i :: 0 <= i < |s| ==> IsTrimmable(s[i])
  {
  }

  /**
   * The condition `s == null || s.trim().isEmpty()` that the review service applies
   * to the reviewer and the comment.
   */
  predicate IsBlankAfterTrim(t: Text) {
    t.None? || Trim(t.value) == []
  }

  // ---------------------------------------------------------------------------
  // Character.isWhitespace and the @NotBlank constraint

  /**
   * `Character.isWhitespace`: the Unicode space, line and paragraph separators
   * other than the no-break spaces U+00A0, U+2007 and U+202F, plus the controls
   * U+0009..U+000D and U+001C..U+001F.
   */
  predicate IsJavaWhitespace(c: char) {
    var n := c as int;
    || (0x09 <= n <= 0x0D)
    || (0x1C <= n <= 0x20)
    || n == 0x1680
    || (0x2000 <= n <= 0x2006)
    || (0x2008 <= n <= 0x200A)
    || n == 0x2028 || n == 0x2029
    || n == 0x205F || n == 0x3000
  }

  /**
   * The `@NotBlank` constraint as documented by Jakarta Bean Validation: not
   * `null`, and at least one char that is not whitespace.
   */
  predicate NotBlank(t: Text) {
    t.Some? && exists i :: 0 <= i < |t.value| && !IsJavaWhitespace(t.value[i])
  }

  // ---------------------------------------------------------------------------
  // String.length() and the @Size constraint

  /** The number of UTF-16 code units that encode one char. */
  function Utf16Units(c: char): nat {
    if c as int < 0x1_0000 then 1 else 2
  }

  /** `String.length()`: the length in UTF-16 code units. */
  function Utf16Length(s: string): (n: nat)
    ensures |s| <= n <= 2 * |s|
    ensures n == |s| <==> forall i :: 0 <= i < |s| ==> s[i] as int < 0x1_0000
  {
    if |s| == 0 then 0
    else
      assert forall i :: 1 <= i < |s| ==> s[i] == s[1..][i - 1];
      Utf16Units(s[0]) + Utf16Length(s[1..])
  }

  /** One char of text has the length of its own UTF-16 encoding. */
  lemma Utf16LengthOne(c: char)
    ensures Utf16Length([c]) == Utf16Units(c)
  { }

  /**
   * `String.length()` is additive over concatenation; with `Utf16LengthOne`
   * it fixes the length of any text as the sum of its chars' unit counts.
   */
  lemma {:induction false} Utf16LengthConcat(a: string, b: string)
    ensures Utf16Length(a + b) == Utf16Length(a) + Utf16Length(b)
    decreases |a|
  {
    if |a| > 0 {
      assert (a + b)[1..] == a[1..] + b;
      Utf16LengthConcat(a[1..], b);
    } else {
      assert a + b == b;
    }
  }

  /** `@Size(max = max)` on a string: `null` passes, otherwise the length is at most `max`. */
  predicate SizeAtMost(t: Text, max: nat) {
    t.None? || Utf16Length(t.value) <= max
  }
}
