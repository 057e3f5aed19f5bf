/** Python's `str.strip`. */
module Text {
  /** The characters that `str.strip` removes. */
  predicate Blank(c: char) {
    || '\t' <= c <= '\r' || '\U{1C}' <= c <= ' ' || c == '\U{85}' || c == '\U{A0}' || c == '\U{1680}'
    || '\U{2000}' <= c <= '\U{200A}' || c == '\U{2028}' || c == '\U{2029}' || c == '\U{202F}' || c == '\U{205F}'
    || c == '\U{3000}'
  }

  function Strip(s: string): string
    decreases |s|
  {
    if s == "" then ""
    else if Blank(s[0]) then Strip(s[1..])
    else if Blank(s[|s| - 1]) then Strip(s[..|s| - 1])
    else s
  }

  ghost predicate Trimmed(s: string) {
    s == "" || (!Blank(s[0]) && !Blank(s[|s| - 1]))
  }

  /** Stripping takes blanks away at the two ends, all of them. */
  lemma {:induction false} StripTrims(s: string) returns (from: nat, to: nat)
    ensures from <= to <= |s| && Strip(s) == s[from..to] && Trimmed(Strip(s))
    ensures forall k :: 0 <= k < from || to <= k < |s| ==> Blank(s[k])
    decreases |s|
  {
    from, to := 0, |s|;
    if s != "" && Blank(s[0]) {
      var rest := s[1..];
      from, to := StripTrims(rest);
      assert rest[from..to] == s[from + 1..to + 1];
      assert forall k :: 0 < k < |s| ==> s[k] == rest[k - 1];
      from, to := from + 1, to + 1;
    } else if s != "" && Blank(s[|s| - 1]) {
      var rest := s[..|s| - 1];
      from, to := StripTrims(rest);
      assert rest[from..to] == s[from..to];
      assert forall k :: 0 <= k < |rest| ==> s[k] == rest[k];
    }
  }
}
