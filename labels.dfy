/** The two string helpers of the Go types generator: `exportField`, which turns a
    field name into an exported Go identifier, and `sanitizeLabelString`, which keeps
    only the characters allowed in a CUE label. */
module Labels {
  import opened Strings

  /** exportField: upper-cases the first byte (`field[:1]`) and keeps the rest. */
  function ExportField(field: string): (r: string)
    ensures |r| == |field|
    ensures |field| > 0 ==> r[0] == UpperChar(field[0]) && r[1..] == field[1..]
    ensures |field| > 0 ==> !IsLowerAscii(r[0])
  {
    if |field| > 0 then ToUpper(field[..1]) + field[1..] else ToUpper(field)
  }

  lemma ExportFieldIdempotent(field: string)
    ensures ExportField(ExportField(field)) == ExportField(field)
  {
  }

  /** A field name is left as it is exactly when it is empty or does not start
      with a lower-case ASCII letter. */
  lemma ExportFieldFixpoint(field: string)
    ensures ExportField(field) == field <==> (field == [] || !IsLowerAscii(field[0]))
  {
  }

  /** The runes `sanitizeLabelString` keeps: [a-zA-Z0-9_]. */
  predicate IsLabelChar(c: char) {
    ('a' <= c <= 'z') || ('A' <= c <= 'Z') || ('0' <= c <= '9') || c == '_'
  }

  /** sanitizeLabelString: strings.Map with a mapping that returns the rune itself for
      a label character and -1 (drop) for any other. */
  function SanitizeLabelString(s: string): (r: string)
    ensures |r| <= |s|
    ensures forall i :: 0 <= i < |r| ==> IsLabelChar(r[i])
  {
    if s == [] then []
    else (if IsLabelChar(s[0]) then [s[0]] else []) + SanitizeLabelString(s[1..])
  }

  /** Sanitizing works character by character, so it keeps the order of what it keeps. */
  lemma {:induction false} SanitizeConcat(a: string, b: string)
    ensures SanitizeLabelString(a + b) == SanitizeLabelString(a) + SanitizeLabelString(b)
  {
    if a != [] {
      assert (a + b)[1..] == a[1..] + b;
      SanitizeConcat(a[1..], b);
    } else {
      assert a + b == b;
    }
  }

  /** Every label character of the input survives, as many times as it occurs;
      every other character is gone. */
  lemma {:induction false} SanitizeCounts(s: string)
    ensures forall c :: multiset(SanitizeLabelString(s))[c] == if IsLabelChar(c) then multiset(s)[c] else 0
  {
    if s != [] {
      SanitizeCounts(s[1..]);
      assert s == [s[0]] + s[1..];
      assert multiset(s) == multiset([s[0]]) + multiset(s[1..]);
    }
  }

  /** A string is a fixed point of sanitizing exactly when all its characters are label characters. */
  lemma {:induction false} SanitizeFixpoint(s: string)
    ensures SanitizeLabelString(s) == s <==> forall i :: 0 <= i < |s| ==> IsLabelChar(s[i])
  {
    if s != [] {
      SanitizeFixpoint(s[1..]);
      if !IsLabelChar(s[0]) {
        assert |SanitizeLabelString(s)| <= |s[1..]| < |s|;
      } else {
        assert forall i :: 1 <= i < |s| ==> s[i] == s[1..][i - 1];
      }
    }
  }

  lemma SanitizeIdempotent(s: string)
    ensures SanitizeLabelString(SanitizeLabelString(s)) == SanitizeLabelString(s)
  {
    SanitizeFixpoint(SanitizeLabelString(s));
  }
}
