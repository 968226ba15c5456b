/**
 * The two notions of a "blank" string the core relies on: Spring's
 * `StringUtils.hasText` (used by `Assert.hasText`) and the Bean Validation
 * `@NotBlank` constraint (Hibernate Validator trims before testing).
 */
module Text {
  import opened Wrappers

  /** `Character.isWhitespace`: the Unicode space, line and paragraph
      separators except the three no-break spaces, plus the ASCII controls
      U+0009..U+000D and U+001C..U+001F. */
  predicate IsJavaWhitespace(c: char)
    ensures c == ' ' || c == '\t' || c == '\n' || c == '\r' ==> IsJavaWhitespace(c)
    ensures IsJavaWhitespace(c) ==> c != '\U{00A0}' && c != '\U{2007}' && c != '\U{202F}'
  {
    || ('\U{0009}' <= c <= '\U{000D}')
    || ('\U{001C}' <= c <= '\U{0020}')
    || c == '\U{1680}'
    || ('\U{2000}' <= c <= '\U{2006}')
    || ('\U{2008}' <= c <= '\U{200A}')
    || c == '\U{2028}' || c == '\U{2029}'
    || c == '\U{205F}' || c == '\U{3000}'
  }

  /** `hasText(s)`: not null and at least one non-whitespace character. */
  predicate HasText(s: Option<string>)
    ensures HasText(s) ==> s.Some? && |s.value| > 0
    ensures s == Some(" ") || s == Some("") ==> !HasText(s)
  {
    s.Some? && exists i | 0 <= i < |s.value| :: !IsJavaWhitespace(s.value[i])
  }

  /** `@NotBlank`: not null and non-empty after `String.trim()`, which strips
      the characters up to U+0020. */
  predicate NotBlank(s: string)
    ensures NotBlank(s) ==> |s| > 0
  {
    exists i | 0 <= i < |s| :: s[i] > ' '
  }

  /** `String.trim()`: drops the leading and the trailing characters up to
      U+0020. */
  function Trim(s: string): string {
    TrimEnd(TrimStart(s))
  }

  function TrimStart(s: string): (t: string)
    ensures |t| <= |s| && t == s[|s| - |t|..]
    ensures t == [] || t[0] > ' '
    ensures forall i | 0 <= i < |s| - |t| :: s[i] <= ' '
  {
    if s != [] && s[0] <= ' ' then TrimStart(s[1..]) else s
  }

  function TrimEnd(s: string): (t: string)
    ensures |t| <= |s| && t == s[..|t|]
    ensures t == [] || t[|t| - 1] > ' '
    ensures s != [] && s[0] > ' ' ==> t != []
  {
    if s != [] && s[|s| - 1] <= ' ' then TrimEnd(s[..|s| - 1]) else s
  }

  /** `@NotBlank` is "non-empty after trimming". */
  lemma NotBlankIffTrimmed(s: string)
    ensures NotBlank(s) <==> Trim(s) != []
  {
    var t := TrimStart(s);
    if Trim(s) != [] {
      assert s[|s| - |t|] > ' ';
    }
  }

  /** `String.length()`: the number of UTF-16 code units, two for a
      character above U+FFFF. */
  function Utf16Length(s: string): (n: nat)
    ensures |s| <= n <= 2 * |s|
    ensures (forall i | 0 <= i < |s| :: s[i] <= '\U{FFFF}') ==> n == |s|
  {
    if s == [] then 0 else (if s[0] > '\U{FFFF}' then 2 else 1) + Utf16Length(s[1..])
  }

  /** A run of `k` characters above U+FFFF is `2 * k` code units long. */
  lemma {:induction false} Utf16LengthSupplementary(c: char, k: nat)
    requires c > '\U{FFFF}'
    ensures Utf16Length(seq(k, _ => c)) == 2 * k
  {
    if k > 0 {
      assert seq(k, _ => c)[1..] == seq(k - 1, _ => c);
      Utf16LengthSupplementary(c, k - 1);
    }
  }

  predicate StartsWith(s: string, prefix: string) {
    |prefix| <= |s| && s[..|prefix|] == prefix
  }

  /** A string holding a character that is not whitespace has text. */
  lemma HasTextWitness(s: string, i: nat)
    requires i < |s| && !IsJavaWhitespace(s[i])
    ensures HasText(Some(s))
  {
  }
}
