/** The comment stripper for JSON with comments (internal/indexer/resolver.go, lines 33-88). */
module JsonComments {

  /** Where a forward reading of the text stands. `odd` says that the characters just read end in an odd
      number of backslashes, so that a quote coming next is escaped. */
  datatype Mode = Code(odd: bool) | Text(odd: bool) | Line | Block

  /** Stripping as a forward reading that never looks back. */
  function Strip(s: string, m: Mode): string
    decreases |s|
  {
    if s == "" then ""
    else
      var c, rest := s[0], s[1..];
      var escapes := c == '\\' && !m.Line? && !m.Block? && !m.odd;
      match m
      case Line => if c == '\n' then [c] + Strip(rest, Code(false)) else Strip(rest, Line)
      case Block => if c == '*' && rest != "" && rest[0] == '/'
          then Strip(rest[1..], Code(false)) else Strip(rest, Block)
      case Text(odd) => [c] + Strip(rest, if c == '"' && !odd then Code(false) else Text(escapes))
      case Code(odd) =>
        if c == '"' && !odd then [c] + Strip(rest, Text(false))
        else if c == '/' && rest != "" && rest[0] == '/' then Strip(rest[1..], Line)
        else if c == '/' && rest != "" && rest[0] == '*' then Strip(rest[1..], Block)
        else [c] + Strip(rest, Code(escapes))
  }

  /** How many backslashes the text ends in: what the source counts, going backwards from a quote. */
  function Trailing(s: string): nat {
    if s == "" || s[|s| - 1] != '\\' then 0 else Trailing(s[..|s| - 1]) + 1
  }

  predicate Odd(s: string) {
    Trailing(s) % 2 == 1
  }

  lemma OddNext(s: string, i: nat)
    requires i < |s|
    ensures Odd(s[..i + 1]) <==> s[i] == '\\' && !Odd(s[..i])
  {
    assert s[..i + 1][..i] == s[..i];
  }

  /** The mode of the forward reading, from the source's three flags and a look backwards. */
  function ModeAt(s: string, i: nat, inString: bool, inLineComment: bool, inBlockComment: bool): Mode
    requires i <= |s|
  {
    if inLineComment then Line
    else if inBlockComment then Block
    else if inString then Text(Odd(s[..i]))
    else Code(Odd(s[..i]))
  }

  /** Lines 62-65. */
  method CountBackslashes(runes: string, i: nat) returns (backslashes: nat)
    requires i <= |runes|
    ensures backslashes == Trailing(runes[..i])
  {
    backslashes := 0;
    var j: nat := i;
    while j > 0 && runes[j - 1] == '\\'
      invariant j <= i && backslashes + Trailing(runes[..j]) == Trailing(runes[..i])
    {
      assert runes[..j][..j - 1] == runes[..j - 1];
      backslashes := backslashes + 1;
      j := j - 1;
    }
  }

  ghost predicate Continues(input: string, result: string, i: nat, m: Mode) {
    i <= |input| && result + Strip(input[i..], m) == Strip(input, Code(false))
  }

  predicate PairAt(s: string, i: nat, c: char, d: char) {
    i + 1 < |s| && s[i] == c && s[i + 1] == d
  }

  lemma LineTurn(input: string, result: string, i: nat)
    requires i < |input| && Continues(input, result, i, Line)
    ensures if input[i] == '\n' then Continues(input, result + [input[i]], i + 1, Code(false))
            else Continues(input, result, i + 1, Line)
  {
    assert input[i..][1..] == input[i + 1..];
  }

  /** One character outside comments: `inString` is the flag after the quote test. */
  lemma CharTurn(input: string, result: string, i: nat, m: Mode, inString: bool)
    requires i < |input| && Continues(input, result, i, m) && (m == Text(Odd(input[..i])) || m == Code(Odd(input[..i])))
    requires inString == if input[i] == '"' && !Odd(input[..i]) then m.Code? else m.Text?
    ensures if !inString && PairAt(input, i, '/', '/') then Continues(input, result, i + 2, Line)
            else if !inString && PairAt(input, i, '/', '*') then Continues(input, result, i + 2, Block)
            else Continues(input, result + [input[i]], i + 1, ModeAt(input, i + 1, inString, false, false))
  {
    OddNext(input, i);
    assert input[i..][1..] == input[i + 1..];
    if i + 1 < |input| {
      assert input[i + 1..][1..] == input[i + 2..];
    }
  }

  /** stripJSONC, lines 34-88: the flags and the backward counting do what the forward reading does. */
  method StripJsonc(input: string) returns (result: string)
    ensures result == Strip(input, Code(false))
  {
    result := "";
    var inString, inLineComment, inBlockComment := false, false, false;
    var i: nat := 0;
    assert input[0..] == input;
    while i < |input|
      invariant i <= |input| && !(inLineComment && inBlockComment)
      invariant (inLineComment || inBlockComment) ==> !inString
      invariant Continues(input, result, i, ModeAt(input, i, inString, inLineComment, inBlockComment))
    {
      var r := input[i];
      if inLineComment {
        LineTurn(input, result, i);
        if r == '\n' {
          inLineComment := false;
          result := result + [r];
        }
        i := i + 1;
        continue;
      }
      if inBlockComment {
        if r == '*' && i + 1 < |input| && input[i + 1] == '/' {
          inBlockComment := false;
          i := i + 1;
        }
        i := i + 1;
        continue;
      }
      ghost var m := ModeAt(input, i, inString, false, false);
      if r == '"' {
        var backslashes := CountBackslashes(input, i);
        if backslashes % 2 == 0 {
          inString := !inString;
        }
      }
      CharTurn(input, result, i, m, inString);
      if !inString {
        if r == '/' && i + 1 < |input| {
          if input[i + 1] == '/' {
            inLineComment := true;
            i := i + 2;
            continue;
          }
          if input[i + 1] == '*' {
            inBlockComment := true;
            i := i + 2;
            continue;
          }
        }
      }
      result := result + [r];
      i := i + 1;
    }
  }

  // ---- What is stripped -----------------------------------------------------------------------------------

  /** A text put together from string literals, other text and comments. A line comment may lack its line
      end where the text ends. */
  datatype Token =
    | Str(body: string)
    | Plain(text: string)
    | LineComment(text: string, ended: bool)
    | BlockComment(text: string)

  function Written(t: Token): string {
    match t
    case Str(body) => "\"" + body + "\""
    case Plain(text) => text
    case LineComment(text, ended) => "//" + text + if ended then "\n" else ""
    case BlockComment(text) => "/*" + text + "*/"
  }

  function Render(ts: seq<Token>): string {
    if ts == [] then "" else Written(ts[0]) + Render(ts[1..])
  }

  /** The same without its comments; the line end behind a line comment stays. */
  function Kept(t: Token): string {
    match t
    case Str(_) => Written(t)
    case Plain(text) => text
    case LineComment(_, ended) => if ended then "\n" else ""
    case BlockComment(_) => ""
  }

  function Erased(ts: seq<Token>): string {
    if ts == [] then "" else Kept(ts[0]) + Erased(ts[1..])
  }

  /** The body of a string literal: every quote in it is escaped, and its end is not. */
  predicate StringBody(b: string, odd: bool) {
    if b == "" then !odd
    else (b[0] == '"' ==> odd) && StringBody(b[1..], b[0] == '\\' && !odd)
  }

  /** Other text: no quote, and nothing in it starts a comment; `slash` says that a slash came before it. */
  predicate PlainText(p: string, slash: bool) {
    if p == "" then true
    else p[0] != '"' && (slash ==> p[0] != '/' && p[0] != '*') && PlainText(p[1..], p[0] == '/')
  }

  function EndsOdd(p: string, odd: bool): bool {
    if p == "" then odd else EndsOdd(p[1..], p[0] == '\\' && !odd)
  }

  function EndsInSlash(p: string, slash: bool): bool {
    if p == "" then slash else p[|p| - 1] == '/'
  }

  predicate NoBlockEnd(t: string) {
    forall i :: 0 <= i < |t| - 1 ==> !(t[i] == '*' && t[i + 1] == '/')
  }

  /** The tokens are what they claim to be, also next to each other: no string literal directly behind an
      odd number of backslashes, and no comment directly behind a slash. */
  predicate WellFormed(ts: seq<Token>, odd: bool, slash: bool) {
    if ts == [] then true
    else match ts[0]
      case Str(body) => !odd && StringBody(body, false) && WellFormed(ts[1..], false, false)
      case Plain(p) => PlainText(p, slash) && WellFormed(ts[1..], EndsOdd(p, odd), EndsInSlash(p, slash))
      case LineComment(t, ended) => !slash && '\n' !in t && (ended || ts[1..] == []) &&
          WellFormed(ts[1..], false, false)
      case BlockComment(t) => !slash && NoBlockEnd(t) && WellFormed(ts[1..], false, false)
  }

  lemma {:induction false} StringPasses(b: string, odd: bool, rest: string)
    requires StringBody(b, odd)
    ensures Strip(b + "\"" + rest, Text(odd)) == b + "\"" + Strip(rest, Code(false))
    decreases |b|
  {
    var s := b + "\"" + rest;
    if b == "" {
      assert s[1..] == rest;
    } else {
      assert s[1..] == b[1..] + "\"" + rest;
      StringPasses(b[1..], b[0] == '\\' && !odd, rest);
      assert [b[0]] + (b[1..] + "\"" + Strip(rest, Code(false))) == b + "\"" + Strip(rest, Code(false));
    }
  }

  predicate StartsComment(s: string) {
    s != "" && s[0] in "/*"
  }

  lemma {:induction false} PlainPasses(p: string, odd: bool, slash: bool, rest: string)
    requires PlainText(p, slash) && (EndsInSlash(p, slash) ==> !StartsComment(rest))
    ensures Strip(p + rest, Code(odd)) == p + Strip(rest, Code(EndsOdd(p, odd)))
    decreases |p|
  {
    if p == "" {
      assert p + rest == rest;
    } else {
      var tail, escapes := p[1..], p[0] == '\\' && !odd;
      assert p == [p[0]] + tail;
      assert p + rest == [p[0]] + (tail + rest);
      if tail == "" {
        assert tail + rest == rest;
      }
      PlainPasses(tail, escapes, p[0] == '/', rest);
    }
  }

  lemma {:induction false} LineVanishes(t: string, rest: string)
    requires '\n' !in t
    ensures Strip(t + "\n" + rest, Line) == "\n" + Strip(rest, Code(false))
    ensures Strip(t, Line) == ""
    decreases |t|
  {
    var s := t + "\n" + rest;
    if t == "" {
      assert s[1..] == rest;
    } else {
      assert s[1..] == t[1..] + "\n" + rest;
      LineVanishes(t[1..], rest);
    }
  }

  lemma {:induction false} BlockVanishes(t: string, rest: string)
    requires NoBlockEnd(t)
    ensures Strip(t + "*/" + rest, Block) == Strip(rest, Code(false))
    decreases |t|
  {
    var s := t + "*/" + rest;
    if t == "" {
      assert s[1..][1..] == rest;
    } else {
      assert s[1..] == t[1..] + "*/" + rest;
      BlockVanishes(t[1..], rest);
    }
  }

  lemma {:induction false} AfterSlash(ts: seq<Token>, odd: bool)
    requires WellFormed(ts, odd, true)
    ensures !StartsComment(Render(ts))
    decreases |ts|
  {
    if ts != [] && ts[0].Plain? && ts[0].text == "" {
      AfterSlash(ts[1..], odd);
    }
  }

  function OddAfter(t: Token, odd: bool): bool {
    if t.Plain? then EndsOdd(t.text, odd) else false
  }

  lemma StrPasses(body: string, rest: string)
    requires StringBody(body, false)
    ensures Strip(Written(Str(body)) + rest, Code(false)) == Written(Str(body)) + Strip(rest, Code(false))
  {
    var inner := body + "\"" + rest;
    assert Written(Str(body)) + rest == "\"" + inner;
    StringPasses(body, false, rest);
  }

  lemma LineCommentPasses(text: string, ended: bool, odd: bool, rest: string)
    requires '\n' !in text && (ended || rest == "")
    ensures Strip(Written(LineComment(text, ended)) + rest, Code(odd))
         == Kept(LineComment(text, ended)) + Strip(rest, Code(false))
  {
    var s := Written(LineComment(text, ended)) + rest;
    assert s[0] == '/' && s[1] == '/';
    assert s[1..][1..] == if ended then text + "\n" + rest else text;
    LineVanishes(text, rest);
  }

  lemma BlockCommentPasses(text: string, odd: bool, rest: string)
    requires NoBlockEnd(text)
    ensures Strip(Written(BlockComment(text)) + rest, Code(odd)) == Strip(rest, Code(false))
  {
    var s := Written(BlockComment(text)) + rest;
    assert s[0] == '/' && s[1] == '*' && s[1..][1..] == text + "*/" + rest;
    BlockVanishes(text, rest);
  }

  lemma TokenPasses(ts: seq<Token>, odd: bool, slash: bool)
    requires ts != [] && WellFormed(ts, odd, slash)
    ensures Strip(Written(ts[0]) + Render(ts[1..]), Code(odd))
         == Kept(ts[0]) + Strip(Render(ts[1..]), Code(OddAfter(ts[0], odd)))
  {
    var rest := Render(ts[1..]);
    match ts[0]
    case Str(body) => StrPasses(body, rest);
    case Plain(p) =>
      if EndsInSlash(p, slash) {
        AfterSlash(ts[1..], EndsOdd(p, odd));
      }
      PlainPasses(p, odd, slash, rest);
    case LineComment(text, ended) => LineCommentPasses(text, ended, odd, rest);
    case BlockComment(text) => BlockCommentPasses(text, odd, rest);
  }

  /** Stripping is exact erasure: of any well-formed list of string literals, other text and comments, what
      comes out is the same list without its comments, strings that look like comments included. */
  lemma {:induction false} StripErases(ts: seq<Token>, odd: bool, slash: bool)
    requires WellFormed(ts, odd, slash)
    ensures Strip(Render(ts), Code(odd)) == Erased(ts)
    decreases |ts|
  {
    if ts != [] {
      TokenPasses(ts, odd, slash);
      StripErases(ts[1..], OddAfter(ts[0], odd), if ts[0].Plain? then EndsInSlash(ts[0].text, slash) else false);
    }
  }

  // ---- Stripping twice --------------------------------------------------------------------------------------

  /** How a pass goes on behind a character that it keeps. */
  function After(c: char, m: Mode): Mode {
    match m
    case Text(odd) => if c == '"' && !odd then Code(false) else Text(c == '\\' && !odd)
    case Code(odd) => if c == '"' && !odd then Text(false) else Code(c == '\\' && !odd)
    case _ => m
  }

  /** A slash that is read as code starts a comment with what comes behind it. */
  predicate SlashIn(c: char, m: Mode) {
    m.Code? && c == '/'
  }

  predicate Fits(c: char, slash: bool) {
    slash ==> c != '/' && c != '*'
  }

  /** Nothing in the text starts a comment; `slash` says that a slash of the code came just before it. */
  predicate Clean(t: string, m: Mode, slash: bool) {
    t == "" || (Fits(t[0], slash) && Clean(t[1..], After(t[0], m), SlashIn(t[0], m)))
  }

  lemma {:induction false} StripShortens(t: string, m: Mode)
    ensures |Strip(t, m)| <= |t|
    decreases |t|
  {
    if t != "" {
      StripShortens(t[1..], Line);
      StripShortens(t[1..], Block);
      StripShortens(t[1..], Code(false));
      StripShortens(t[1..], After(t[0], m));
      if t[1..] != "" {
        StripShortens(t[1..][1..], Line);
        StripShortens(t[1..][1..], Block);
        StripShortens(t[1..][1..], Code(false));
      }
    }
  }

  /** A pass changes nothing exactly when nothing starts a comment. */
  lemma {:induction false} UnchangedIffClean(t: string, m: Mode)
    requires m.Code? || m.Text?
    ensures Strip(t, m) == t <==> Clean(t, m, false)
    decreases |t|
  {
    if t == "" { return; }
    var c, rest := t[0], t[1..];
    if m.Code? && c == '/' && StartsComment(rest) {
      StripShortens(rest[1..], Line);
      StripShortens(rest[1..], Block);
      assert |Strip(t, m)| < |t|;
    } else {
      UnchangedIffClean(rest, After(c, m));
      assert Strip(t, m) == [c] + Strip(rest, After(c, m));
      assert Strip(t, m)[1..] == Strip(rest, After(c, m));
    }
  }

  /** One scan of the text that follows both passes: `m` is where the first stands, `again` where the second
      stands among the characters the first keeps, and `slash` that the last one kept was a slash of the
      second pass's code. It fails where a kept character would start a comment for the second pass. */
  predicate Stable(s: string, m: Mode, again: Mode, slash: bool)
    decreases |s|
  {
    if s == "" then true
    else
      var c, rest := s[0], s[1..];
      match m
      case Line => if c == '\n'
          then KeptStable(c, rest, Code(false), again, slash) else Stable(rest, Line, again, slash)
      case Block =>
        if c == '*' && rest != "" && rest[0] == '/' then Stable(rest[1..], Code(false), again, slash)
        else Stable(rest, Block, again, slash)
      case Text(_) => KeptStable(c, rest, After(c, m), again, slash)
      case Code(_) =>
        if c == '/' && rest != "" && rest[0] == '/' then Stable(rest[1..], Line, again, slash)
        else if c == '/' && rest != "" && rest[0] == '*' then Stable(rest[1..], Block, again, slash)
        else KeptStable(c, rest, After(c, m), again, slash)
  }

  predicate KeptStable(c: char, rest: string, next: Mode, again: Mode, slash: bool)
    decreases |rest| + 1, 0
  {
    Fits(c, slash) && Stable(rest, next, After(c, again), SlashIn(c, again))
  }

  lemma {:induction false} StableIffClean(s: string, m: Mode, again: Mode, slash: bool)
    ensures Stable(s, m, again, slash) <==> Clean(Strip(s, m), again, slash)
    decreases |s|
  {
    if s == "" { return; }
    var c, rest := s[0], s[1..];
    match m
    case Line =>
      if c == '\n' { KeptStableIffClean(c, rest, Code(false), again, slash); }
      else { StableIffClean(rest, Line, again, slash); }
    case Block =>
      if c == '*' && rest != "" && rest[0] == '/' { StableIffClean(rest[1..], Code(false), again, slash); }
      else { StableIffClean(rest, Block, again, slash); }
    case Text(_) => KeptStableIffClean(c, rest, After(c, m), again, slash);
    case Code(_) =>
      if c == '/' && rest != "" && rest[0] == '/' { StableIffClean(rest[1..], Line, again, slash); }
      else if c == '/' && rest != "" && rest[0] == '*' { StableIffClean(rest[1..], Block, again, slash); }
      else { KeptStableIffClean(c, rest, After(c, m), again, slash); }
  }

  lemma KeptStableIffClean(c: char, rest: string, next: Mode, again: Mode, slash: bool)
    ensures KeptStable(c, rest, next, again, slash) <==> Clean([c] + Strip(rest, next), again, slash)
    decreases |rest| + 1, 0
  {
    StableIffClean(rest, next, After(c, again), SlashIn(c, again));
    assert ([c] + Strip(rest, next))[1..] == Strip(rest, next);
  }

  /** For every text: stripping what is stripped changes nothing exactly when one scan of the text itself
      finds no place where a kept character would start a comment. */
  lemma StripTwiceIff(s: string)
    ensures Strip(Strip(s, Code(false)), Code(false)) == Strip(s, Code(false))
       <==> Stable(s, Code(false), Code(false), false)
  {
    StableIffClean(s, Code(false), Code(false), false);
    UnchangedIffClean(Strip(s, Code(false)), Code(false));
  }

  /** A condition that is easier to see: no block comment directly behind an odd number of backslashes outside
      a string. */
  predicate Safe(s: string, m: Mode)
    decreases |s|
  {
    if s == "" then true
    else
      var c, rest := s[0], s[1..];
      match m
      case Line => if c == '\n' then Safe(rest, Code(false)) else Safe(rest, Line)
      case Block => if c == '*' && rest != "" && rest[0] == '/' then Safe(rest[1..], Code(false)) else Safe(rest, Block)
      case Text(_) => Safe(rest, After(c, m))
      case Code(odd) =>
        if c == '/' && rest != "" && rest[0] == '/' then Safe(rest[1..], Line)
        else if c == '/' && rest != "" && rest[0] == '*' then !odd && Safe(rest[1..], Block)
        else Safe(rest, After(c, m))
  }

  /** The mode in which the second pass stands where the first pass stands in m; a line comment may have
      begun in either. */
  predicate SecondMode(m: Mode, again: Mode) {
    match m
    case Line => again.Code?
    case Block => again == Code(false)
    case _ => again == m
  }

  lemma {:induction false} SafeIsStable(s: string, m: Mode, again: Mode, slash: bool)
    requires Safe(s, m) && SecondMode(m, again) && (slash ==> m.Code? && !StartsComment(s))
    ensures Stable(s, m, again, slash)
    decreases |s|
  {
    if s == "" { return; }
    var c, rest := s[0], s[1..];
    match m
    case Line =>
      if c == '\n' { SafeIsStable(rest, Code(false), After(c, again), false); }
      else { SafeIsStable(rest, Line, again, slash); }
    case Block =>
      if c == '*' && rest != "" && rest[0] == '/' { SafeIsStable(rest[1..], Code(false), again, slash); }
      else { SafeIsStable(rest, Block, again, slash); }
    case Text(_) => SafeIsStable(rest, After(c, m), After(c, again), false);
    case Code(_) =>
      if c == '/' && rest != "" && rest[0] == '/' { SafeIsStable(rest[1..], Line, again, slash); }
      else if c == '/' && rest != "" && rest[0] == '*' { SafeIsStable(rest[1..], Block, again, slash); }
      else { SafeIsStable(rest, After(c, m), After(c, again), SlashIn(c, again)); }
  }

  /** Where it holds, a second pass finds nothing left to strip. */
  lemma StripTwice(s: string)
    requires Safe(s, Code(false))
    ensures Strip(Strip(s, Code(false)), Code(false)) == Strip(s, Code(false))
  {
    SafeIsStable(s, Code(false), Code(false), false);
    StripTwiceIff(s);
  }

  // ---- Backslashes in strings only -----------------------------------------------------------------------------

  /** No token outside strings and comments has a backslash, as in JSON. */
  ghost predicate PlainBackslashFree(ts: seq<Token>) {
    forall i :: 0 <= i < |ts| && ts[i].Plain? ==> '\\' !in ts[i].text
  }

  lemma {:induction false} StringSafe(b: string, odd: bool, rest: string)
    requires StringBody(b, odd) && Safe(rest, Code(false))
    ensures Safe(b + "\"" + rest, Text(odd))
    decreases |b|
  {
    var s := b + "\"" + rest;
    if b == "" {
      assert s[1..] == rest;
    } else {
      assert s[1..] == b[1..] + "\"" + rest;
      StringSafe(b[1..], b[0] == '\\' && !odd, rest);
    }
  }

  lemma {:induction false} PlainSafe(p: string, slash: bool, rest: string)
    requires PlainText(p, slash) && (EndsInSlash(p, slash) ==> !StartsComment(rest)) && '\\' !in p
    requires Safe(rest, Code(false))
    ensures Safe(p + rest, Code(false)) && !EndsOdd(p, false)
    decreases |p|
  {
    if p == "" {
      assert p + rest == rest;
    } else {
      assert (p + rest)[1..] == p[1..] + rest;
      if p[1..] == "" {
        assert p[1..] + rest == rest;
      }
      PlainSafe(p[1..], p[0] == '/', rest);
    }
  }

  lemma {:induction false} LineSafe(t: string, rest: string)
    requires '\n' !in t && Safe(rest, Code(false))
    ensures Safe(t + "\n" + rest, Line) && Safe(t, Line)
    decreases |t|
  {
    if t == "" {
      assert (t + "\n" + rest)[1..] == rest;
    } else {
      assert (t + "\n" + rest)[1..] == t[1..] + "\n" + rest;
      LineSafe(t[1..], rest);
    }
  }

  lemma {:induction false} BlockSafe(t: string, rest: string)
    requires NoBlockEnd(t) && Safe(rest, Code(false))
    ensures Safe(t + "*/" + rest, Block)
    decreases |t|
  {
    var s := t + "*/" + rest;
    if t == "" {
      assert s[1..][1..] == rest;
    } else {
      assert s[1..] == t[1..] + "*/" + rest;
      BlockSafe(t[1..], rest);
    }
  }

  lemma StrSafe(body: string, rest: string)
    requires StringBody(body, false) && Safe(rest, Code(false))
    ensures Safe(Written(Str(body)) + rest, Code(false))
  {
    var s := Written(Str(body)) + rest;
    StringSafe(body, false, rest);
    assert s[0] == '"' && s[1..] == body + "\"" + rest;
  }

  lemma LineCommentSafe(text: string, ended: bool, rest: string)
    requires '\n' !in text && (ended || rest == "") && Safe(rest, Code(false))
    ensures Safe(Written(LineComment(text, ended)) + rest, Code(false))
  {
    var s := Written(LineComment(text, ended)) + rest;
    LineSafe(text, rest);
    assert s[0] == '/' && s[1] == '/';
    assert s[1..][1..] == if ended then text + "\n" + rest else text;
  }

  lemma BlockCommentSafe(text: string, rest: string)
    requires NoBlockEnd(text) && Safe(rest, Code(false))
    ensures Safe(Written(BlockComment(text)) + rest, Code(false))
  {
    var s := Written(BlockComment(text)) + rest;
    BlockSafe(text, rest);
    assert s[0] == '/' && s[1] == '*' && s[1..][1..] == text + "*/" + rest;
  }

  lemma TokenSafe(ts: seq<Token>, slash: bool)
    requires ts != [] && WellFormed(ts, false, slash) && PlainBackslashFree(ts) && Safe(Render(ts[1..]), Code(false))
    ensures Safe(Written(ts[0]) + Render(ts[1..]), Code(false))
  {
    var rest := Render(ts[1..]);
    match ts[0]
    case Str(body) => StrSafe(body, rest);
    case Plain(p) =>
      if EndsInSlash(p, slash) {
        AfterSlash(ts[1..], EndsOdd(p, false));
      }
      PlainSafe(p, slash, rest);
    case LineComment(text, ended) => LineCommentSafe(text, ended, rest);
    case BlockComment(text) => BlockCommentSafe(text, rest);
  }

  lemma {:induction false} NeverOdd(p: string)
    requires '\\' !in p
    ensures !EndsOdd(p, false)
  {
    if p != "" {
      NeverOdd(p[1..]);
    }
  }

  /** JSON has backslashes in strings only, so there a second pass never changes anything. */
  lemma {:induction false} JsonIsSafe(ts: seq<Token>, slash: bool)
    requires WellFormed(ts, false, slash) && PlainBackslashFree(ts)
    ensures Safe(Render(ts), Code(false))
    decreases |ts|
  {
    if ts != [] {
      assert PlainBackslashFree(ts[1..]) by {
        assert forall i :: 0 <= i < |ts[1..]| ==> ts[1..][i] == ts[i + 1];
      }
      if ts[0].Plain? {
        NeverOdd(ts[0].text);
      }
      JsonIsSafe(ts[1..], if ts[0].Plain? then EndsInSlash(ts[0].text, slash) else false);
      TokenSafe(ts, slash);
    }
  }

  lemma JsonStripsOnce(ts: seq<Token>)
    requires WellFormed(ts, false, false) && PlainBackslashFree(ts)
    ensures Strip(Erased(ts), Code(false)) == Erased(ts)
  {
    JsonIsSafe(ts, false);
    StripTwice(Render(ts));
    StripErases(ts, false, false);
  }

  // ---- Where it fails -------------------------------------------------------------------------------------------

  /** A lone backslash, an empty comment, and a string that looks like a comment. */
  const LITERAL := Written(Str("//"))
  const HIDDEN_QUOTE := "\\" + (Written(BlockComment("")) + LITERAL)

  lemma FirstPass()
    ensures Strip(HIDDEN_QUOTE, Code(false)) == "\\" + LITERAL
  {
    BlockCommentPasses("", true, LITERAL);
    StrPasses("//", "");
    assert LITERAL + "" == LITERAL;
  }

  lemma SecondPass()
    ensures |Strip("\\" + LITERAL, Code(false))| == 2
  {
    assert "\\" + LITERAL == ['\\'] + LITERAL;
    assert ("\\" + LITERAL)[1..] == LITERAL;
    assert LITERAL == ['"'] + Written(LineComment("\"", false));
    assert Written(LineComment("\"", false)) + "" == Written(LineComment("\"", false));
    LineCommentPasses("\"", false, false, "");
    assert Strip(LITERAL, Code(true)) == ['"'] + Strip(LITERAL[1..], Code(false));
  }

  /** A block comment keeps a backslash away from a quote, and once it is gone the second pass takes the
      string apart. */
  lemma StripTwiceCanDiffer()
    ensures Strip(Strip(HIDDEN_QUOTE, Code(false)), Code(false)) != Strip(HIDDEN_QUOTE, Code(false))
  {
    FirstPass();
    SecondPass();
  }
}
