/**
 * The text a C string sees: building a std::string from `s.data()` (a
 * `const char*`) or opening a file by name reads up to the first NUL
 * character, so everything from the first NUL on is dropped.
 */
module CStrings {

  predicate HasNul(s: string)
  {
    exists i :: 0 <= i < |s| && s[i] == '\0'
  }

  /** `s` up to (not including) its first NUL. */
  function CStr(s: string): (r: string)
    ensures r <= s
    ensures !HasNul(r)
    ensures |r| < |s| ==> s[|r|] == '\0'
  {
    if |s| == 0 || s[0] == '\0' then ""
    else
      var rest := CStr(s[1..]);
      assert forall i :: 0 < i < |s| ==> s[i] == s[1..][i - 1];
      [s[0]] + rest
  }

  /** A string without NUL passes through unchanged. */
  lemma {:induction false} CStrOfNulFree(s: string)
    requires !HasNul(s)
    ensures CStr(s) == s
  {
    if |s| > 0 {
      assert s[0] != '\0';
      assert !HasNul(s[1..]) by {
        forall i | 0 <= i < |s[1..]| ensures s[1..][i] != '\0' { assert s[1..][i] == s[i + 1]; }
      }
      CStrOfNulFree(s[1..]);
    }
  }

  /** Cutting changes a string exactly when it holds a NUL, and cutting twice is cutting once. */
  lemma CStrChangesOnlyNul(s: string)
    ensures CStr(s) == s <==> !HasNul(s)
    ensures CStr(CStr(s)) == CStr(s)
  {
    if !HasNul(s) {
      CStrOfNulFree(s);
    }
    CStrOfNulFree(CStr(s));
  }

  /** A string whose first NUL is at `i` reads, as a C string, as its first `i` characters. */
  lemma CStrStopsAtFirstNul(s: string, i: nat)
    requires i < |s| && s[i] == '\0' && !HasNul(s[..i])
    ensures CStr(s) == s[..i]
  {
  }
}
