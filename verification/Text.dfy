/** Text operations of the Go library that several files use. */
module Text {

  function TrimSpace(isSpace: char -> bool, s: string): string
    decreases |s|
  {
    if s == "" then ""
    else if isSpace(s[0]) then TrimSpace(isSpace, s[1..])
    else if isSpace(s[|s|-1]) then TrimSpace(isSpace, s[..|s|-1])
    else s
  }

  lemma {:induction false} TrimIgnoresTrailingSpace(isSpace: char -> bool, s: string, c: char)
    requires isSpace(c)
    ensures TrimSpace(isSpace, s + [c]) == TrimSpace(isSpace, s)
    decreases |s|
  {
    if s == "" {
    } else if isSpace(s[0]) {
      assert (s + [c])[1..] == s[1..] + [c];
      TrimIgnoresTrailingSpace(isSpace, s[1..], c);
    } else {
      assert (s + [c])[..|s|] == s;
    }
  }

  /** Trimming leaves nothing exactly when there is nothing but white space. */
  lemma {:induction false} BlankIff(isSpace: char -> bool, s: string)
    ensures TrimSpace(isSpace, s) == "" <==> forall k :: 0 <= k < |s| ==> isSpace(s[k])
    decreases |s|
  {
    if s == "" {
    } else if isSpace(s[0]) {
      BlankIff(isSpace, s[1..]);
      assert forall k :: 1 <= k < |s| ==> s[k] == s[1..][k-1];
    } else if isSpace(s[|s|-1]) {
      BlankIff(isSpace, s[..|s|-1]);
      assert s[..|s|-1][0] == s[0];
    }
  }

  ghost predicate AllSpace(isSpace: char -> bool, s: string) {
    forall k :: 0 <= k < |s| ==> isSpace(s[k])
  }

  /** Trimming takes white space off both ends, all of it, and nothing else. */
  lemma {:induction false} TrimmedIs(isSpace: char -> bool, s: string) returns (a: string, b: string)
    ensures s == a + TrimSpace(isSpace, s) + b && AllSpace(isSpace, a) && AllSpace(isSpace, b)
    ensures var t := TrimSpace(isSpace, s); t != "" ==> !isSpace(t[0]) && !isSpace(t[|t|-1])
    decreases |s|
  {
    a, b := "", "";
    if s == "" {
    } else if isSpace(s[0]) {
      a, b := TrimmedIs(isSpace, s[1..]);
      assert s == [s[0]] + s[1..];
      a := [s[0]] + a;
    } else if isSpace(s[|s|-1]) {
      a, b := TrimmedIs(isSpace, s[..|s|-1]);
      assert s == s[..|s|-1] + [s[|s|-1]];
      b := b + [s[|s|-1]];
    }
  }
}
