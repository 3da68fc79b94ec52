/** The language-server message framing: writeLocked, and the header and body scan of readLoop
    (internal/lsp/client.go 248-285), following the Language Server Protocol 3.17, section "Header Part".
    A char stands for one byte. */
module LspFraming {
  import Decimal
  import Text
  import opened Wrappers

  const LENGTH := "Content-Length: "

  /** The white space strings.TrimSpace knows, as far as ASCII goes; header parts are ASCII. */
  ghost predicate AsciiSpace(isSpace: char -> bool) {
    forall c: char :: c as int < 128 ==> (isSpace(c) <==> c in "\t\n\U{0B}\U{0C}\r ")
  }

  /** The largest int, and the most bytes Go allocates at once, both on a 64-bit machine. */
  const MAX_INT := 0x7FFF_FFFF_FFFF_FFFF
  const MAX_ALLOC := 0x1_0000_0000_0000

  // ---- Writing ------------------------------------------------------------------------------------------

  function Header(n: nat): string {
    LENGTH + Decimal.Itoa(n) + "\r\n\r\n"
  }

  /** Lines 248-257, the bytes a message is sent as. */
  function Frame(body: string): string {
    Header(|body|) + body
  }

  /** A message as any conforming server may send it: other header fields around the length. */
  datatype Message = Message(before: seq<string>, after: seq<string>, body: string)

  function Lines(ls: seq<string>): string {
    if ls == [] then "" else ls[0] + "\r\n" + Lines(ls[1..])
  }

  function Render(m: Message): string {
    Lines(m.before) + (LENGTH + Decimal.Itoa(|m.body|) + "\r\n") + Lines(m.after) + "\r\n" + m.body
  }

  function Stream(ms: seq<Message>): string {
    if ms == [] then "" else Render(ms[0]) + Stream(ms[1..])
  }

  /** Some other header field: one line, not blank, not a length. */
  ghost predicate OtherField(isSpace: char -> bool, line: string) {
    && '\n' !in line
    && Text.TrimSpace(isSpace, line) != ""
    && !(LENGTH <= Text.TrimSpace(isSpace, line))
  }

  ghost predicate Conforming(isSpace: char -> bool, m: Message) {
    && (forall l :: l in m.before ==> OtherField(isSpace, l))
    && (forall l :: l in m.after ==> OtherField(isSpace, l))
  }

  // ---- Reading ------------------------------------------------------------------------------------------

  /** The nearest int. */
  function Clamp(n: int): int {
    if n > MAX_INT then MAX_INT else if n < -MAX_INT - 1 then -MAX_INT - 1 else n
  }

  predicate IsNumeral(s: string) {
    s != "" && forall i :: 0 <= i < |s| ==> Decimal.IsDigit(s[i])
  }

  /** strconv.Atoi with its error dropped: zero unless the text is a numeral with an optional sign, and the nearest
      int for a number that is none. */
  function Atoi(s: string): int {
    if s == "" then 0
    else
      var digits := if s[0] in "+-" then s[1..] else s;
      if !IsNumeral(digits) then 0
      else if s[0] == '-' then Clamp(0 - Decimal.Value(digits)) else Clamp(Decimal.Value(digits))
  }

  /** Where the first line ends; None when the stream ends first. */
  function LineEnd(s: string): (k: Option<nat>)
    ensures k.Some? ==> k.value < |s|
  {
    if s == "" then None
    else if s[0] == '\n' then Some(0)
    else
      var k := LineEnd(s[1..]);
      if k.None? then None else Some(k.value + 1)
  }

  lemma {:induction false} LineEndIsFirst(s: string)
    ensures LineEnd(s).None? <==> '\n' !in s
    ensures LineEnd(s).Some? ==> s[LineEnd(s).value] == '\n' && '\n' !in s[..LineEnd(s).value]
  {
    if s != "" && s[0] != '\n' {
      LineEndIsFirst(s[1..]);
      var k := LineEnd(s[1..]);
      assert s == [s[0]] + s[1..];
      if k.Some? {
        assert s[..k.value + 1] == [s[0]] + s[1..][..k.value];
      }
    }
  }

  datatype Head = Head(length: int, rest: string)

  /** One header line read with `length` found so far. */
  function LengthAfter(line: string, length: int): int {
    if LENGTH <= line then Atoi(line[|LENGTH|..]) else length
  }

  /** Lines 262-278: read lines up to a blank one. */
  function ReadHead(isSpace: char -> bool, s: string, length: int): (h: Option<Head>)
    ensures h.Some? ==> |h.value.rest| < |s|
    decreases |s|
  {
    var k := LineEnd(s);
    if k.None? then None
    else
      var line := Text.TrimSpace(isSpace, s[..k.value + 1]);
      var rest := s[k.value + 1..];
      if line == "" then Some(Head(length, rest))
      else ReadHead(isSpace, rest, LengthAfter(line, length))
  }

  /** What a stream amounts to: the bodies read from it, and how the reading ended. A negative length,
      and one that is more than can be allocated, makes the allocation of the body panic. */
  datatype Outcome = Disconnected | Panicked
  datatype Reading = Reading(bodies: seq<string>, end: Outcome)

  /** Lines 259-285. */
  function Read(isSpace: char -> bool, s: string): Reading
    decreases |s|
  {
    var h := ReadHead(isSpace, s, 0);
    if h.None? then Reading([], Disconnected)
    else if h.value.length < 0 || h.value.length > MAX_ALLOC then Reading([], Panicked)
    else if h.value.length > |h.value.rest| then Reading([], Disconnected)
    else
      var next := Read(isSpace, h.value.rest[h.value.length..]);
      Reading([h.value.rest[..h.value.length]] + next.bodies, next.end)
  }

  /** The inner loop, lines 262-278. */
  method ReadHeaders(isSpace: char -> bool, stream: string) returns (h: Option<Head>)
    ensures h == ReadHead(isSpace, stream, 0)
  {
    var length, rest := 0, stream;
    while true
      invariant ReadHead(isSpace, stream, 0) == ReadHead(isSpace, rest, length)
      decreases |rest|
    {
      var k := LineEnd(rest);
      if k.None? {
        return None;
      }
      var line := Text.TrimSpace(isSpace, rest[..k.value + 1]);
      rest := rest[k.value + 1..];
      if line == "" {
        return Some(Head(length, rest));
      }
      if LENGTH <= line {
        length := Atoi(line[|LENGTH|..]);
      }
    }
  }

  ghost predicate ReadSoFar(isSpace: char -> bool, all: Reading, bodies: seq<string>, rest: string) {
    all == Reading(bodies + Read(isSpace, rest).bodies, Read(isSpace, rest).end)
  }

  /** The read loop itself: bodies are handed on one by one. */
  method ReadLoop(isSpace: char -> bool, stream: string) returns (bodies: seq<string>, end: Outcome)
    ensures Reading(bodies, end) == Read(isSpace, stream)
  {
    bodies := [];
    var rest := stream;
    ghost var all := Read(isSpace, stream);
    while true
      invariant ReadSoFar(isSpace, all, bodies, rest)
      decreases |rest|
    {
      var h := ReadHeaders(isSpace, rest);
      if h.None? {
        return bodies, Disconnected;
      }
      if h.value.length < 0 || h.value.length > MAX_ALLOC {
        return bodies, Panicked;
      }
      if h.value.length > |h.value.rest| {
        return bodies, Disconnected;
      }
      bodies := bodies + [h.value.rest[..h.value.length]];
      rest := h.value.rest[h.value.length..];
    }
  }

  // ---- Reading undoes writing ---------------------------------------------------------------------------

  lemma {:induction false} LineEndOf(l: string, t: string)
    requires '\n' !in l
    ensures LineEnd(l + "\n" + t) == Some(|l|)
  {
    var s := l + "\n" + t;
    if l != "" {
      assert s[1..] == l[1..] + "\n" + t;
      LineEndOf(l[1..], t);
    }
  }

  lemma ReadOneLine(isSpace: char -> bool, l: string, t: string, length: int)
    requires AsciiSpace(isSpace) && '\n' !in l
    ensures ReadHead(isSpace, l + "\r\n" + t, length)
         == if Text.TrimSpace(isSpace, l) == "" then Some(Head(length, t))
            else ReadHead(isSpace, t, LengthAfter(Text.TrimSpace(isSpace, l), length))
  {
    var s := l + "\r\n" + t;
    LineEndOf(l + "\r", t);
    assert s == (l + "\r") + "\n" + t;
    assert s[..|l| + 2] == (l + "\r") + "\n" && s[|l| + 2..] == t;
    Text.TrimIgnoresTrailingSpace(isSpace, l + "\r", '\n');
    Text.TrimIgnoresTrailingSpace(isSpace, l, '\r');
  }

  lemma {:induction false} ReadOtherFields(isSpace: char -> bool, ls: seq<string>, t: string, length: int)
    requires AsciiSpace(isSpace) && forall l :: l in ls ==> OtherField(isSpace, l)
    ensures ReadHead(isSpace, Lines(ls) + t, length) == ReadHead(isSpace, t, length)
    decreases |ls|
  {
    if ls == [] {
      assert Lines(ls) + t == t;
    } else {
      assert Lines(ls) + t == ls[0] + "\r\n" + (Lines(ls[1..]) + t);
      assert OtherField(isSpace, ls[0]);
      ReadOneLine(isSpace, ls[0], Lines(ls[1..]) + t, length);
      ReadOtherFields(isSpace, ls[1..], t, length);
    }
  }

  lemma AtoiItoa(n: nat)
    ensures Atoi(Decimal.Itoa(n)) == Clamp(n)
  {
    Decimal.ValueOfItoa(n);
    assert Decimal.IsDigit(Decimal.Itoa(n)[0]);
  }

  lemma ReadLengthField(isSpace: char -> bool, n: nat, t: string, length: int)
    requires AsciiSpace(isSpace)
    ensures ReadHead(isSpace, (LENGTH + Decimal.Itoa(n) + "\r\n") + t, length) == ReadHead(isSpace, t, Clamp(n))
  {
    var l := LENGTH + Decimal.Itoa(n);
    assert l[0] == 'C' && Decimal.IsDigit(l[|l| - 1]);
    assert Text.TrimSpace(isSpace, l) == l;
    assert forall k :: 0 <= k < |l| ==> l[k] in LENGTH || Decimal.IsDigit(l[k]);
    assert l[|LENGTH|..] == Decimal.Itoa(n);
    AtoiItoa(n);
    ReadOneLine(isSpace, l, t, length);
    assert (LENGTH + Decimal.Itoa(n) + "\r\n") + t == l + "\r\n" + t;
  }

  /** A length field without a numeral counts as zero, and the one before it no longer does. */
  lemma ReadJunkLength(isSpace: char -> bool, junk: string, t: string, length: int)
    requires AsciiSpace(isSpace) && junk != "" && '\n' !in junk
    requires !isSpace(junk[|junk|-1]) && junk[0] !in "+-" && !IsNumeral(junk)
    ensures ReadHead(isSpace, (LENGTH + junk + "\r\n") + t, length) == ReadHead(isSpace, t, 0)
  {
    var l := LENGTH + junk;
    assert l[0] == 'C' && l[|l| - 1] == junk[|junk|-1];
    assert Text.TrimSpace(isSpace, l) == l;
    assert l[|LENGTH|..] == junk;
    assert forall k :: 0 <= k < |l| ==> l[k] in LENGTH || l[k] in junk;
    ReadOneLine(isSpace, l, t, length);
    assert (LENGTH + junk + "\r\n") + t == l + "\r\n" + t;
  }

  lemma HeadOfMessage(isSpace: char -> bool, m: Message, t: string)
    requires AsciiSpace(isSpace) && Conforming(isSpace, m)
    ensures ReadHead(isSpace, Render(m) + t, 0) == Some(Head(Clamp(|m.body|), m.body + t))
  {
    var afterLength := Lines(m.after) + ("" + "\r\n" + (m.body + t));
    RenderSplits(m, t);
    ReadOtherFields(isSpace, m.before, (LENGTH + Decimal.Itoa(|m.body|) + "\r\n") + afterLength, 0);
    ReadLengthField(isSpace, |m.body|, afterLength, 0);
    ReadOtherFields(isSpace, m.after, "" + "\r\n" + (m.body + t), Clamp(|m.body|));
    ReadOneLine(isSpace, "", m.body + t, Clamp(|m.body|));
  }

  lemma RenderSplits(m: Message, t: string)
    ensures Render(m) + t
         == Lines(m.before) + ((LENGTH + Decimal.Itoa(|m.body|) + "\r\n") +
                               (Lines(m.after) + ("" + "\r\n" + (m.body + t))))
  {}

  /** The body can be allocated. */
  predicate Fits(m: Message) {
    |m.body| <= MAX_ALLOC
  }

  lemma ReadRendered(isSpace: char -> bool, m: Message, t: string)
    requires AsciiSpace(isSpace) && Conforming(isSpace, m)
    ensures Read(isSpace, Render(m) + t) ==
            if Fits(m) then Reading([m.body] + Read(isSpace, t).bodies, Read(isSpace, t).end)
            else Reading([], Panicked)
  {
    HeadOfMessage(isSpace, m, t);
    assert (m.body + t)[..|m.body|] == m.body && (m.body + t)[|m.body|..] == t;
  }

  function Bodies(ms: seq<Message>): seq<string> {
    if ms == [] then [] else [ms[0].body] + Bodies(ms[1..])
  }

  /** The messages before the first whose body cannot be allocated. */
  function Fitting(ms: seq<Message>): (r: seq<Message>)
    ensures r == ms <==> forall m :: m in ms ==> Fits(m)
  {
    if ms == [] || !Fits(ms[0]) then []
    else
      assert ms == [ms[0]] + ms[1..];
      [ms[0]] + Fitting(ms[1..])
  }

  /** Whatever the bodies hold, line ends and text that looks like a header included, and whatever other
      header fields stand around the lengths, reading the stream gives back exactly the bodies, up to the first
      that cannot be allocated. */
  lemma {:induction false} RoundTrip(isSpace: char -> bool, ms: seq<Message>)
    requires AsciiSpace(isSpace) && forall m :: m in ms ==> Conforming(isSpace, m)
    ensures Read(isSpace, Stream(ms)) ==
            Reading(Bodies(Fitting(ms)), if Fitting(ms) == ms then Disconnected else Panicked)
    decreases |ms|
  {
    if ms != [] {
      ReadRendered(isSpace, ms[0], Stream(ms[1..]));
      RoundTrip(isSpace, ms[1..]);
    }
  }

  // ---- What the client itself writes ----------------------------------------------------------------------

  function Written(bodies: seq<string>): string {
    if bodies == [] then "" else Frame(bodies[0]) + Written(bodies[1..])
  }

  function Plain(bodies: seq<string>): (ms: seq<Message>)
    ensures Bodies(ms) == bodies
    ensures forall m :: m in ms ==> m.before == [] && m.after == [] && m.body in bodies
  {
    if bodies == [] then [] else [Message([], [], bodies[0])] + Plain(bodies[1..])
  }

  lemma FrameIsRendered(body: string)
    ensures Frame(body) == Render(Message([], [], body))
  {}

  lemma {:induction false} WrittenIsStream(bodies: seq<string>)
    ensures Written(bodies) == Stream(Plain(bodies))
  {
    if bodies != [] {
      WrittenIsStream(bodies[1..]);
      FrameIsRendered(bodies[0]);
      assert Plain(bodies)[1..] == Plain(bodies[1..]);
    }
  }

  ghost predicate Allocatable(bodies: seq<string>) {
    forall b :: b in bodies ==> |b| <= MAX_ALLOC
  }

  /** The client's own writer and reader undo each other exactly for bodies that can be allocated. */
  lemma WriterReaderRoundTrip(isSpace: char -> bool, bodies: seq<string>)
    requires AsciiSpace(isSpace)
    ensures Read(isSpace, Written(bodies)) == Reading(bodies, Disconnected) <==> Allocatable(bodies)
  {
    WrittenIsStream(bodies);
    RoundTrip(isSpace, Plain(bodies));
    PlainFits(bodies);
  }

  lemma {:induction false} PlainAt(bodies: seq<string>)
    ensures |Plain(bodies)| == |bodies|
    ensures forall i :: 0 <= i < |bodies| ==> Plain(bodies)[i].body == bodies[i]
  {
    if bodies != [] {
      PlainAt(bodies[1..]);
    }
  }

  lemma PlainFits(bodies: seq<string>)
    ensures Fitting(Plain(bodies)) == Plain(bodies) <==> Allocatable(bodies)
  {
    var ms := Plain(bodies);
    PlainAt(bodies);
    if forall m :: m in ms ==> Fits(m) {
      forall b | b in bodies ensures |b| <= MAX_ALLOC {
        var i :| 0 <= i < |bodies| && bodies[i] == b;
        assert ms[i] in ms;
      }
    }
  }

  /** So two different lists of bodies never look the same on the wire. */
  lemma WritingIsInjective(isSpace: char -> bool, a: seq<string>, b: seq<string>)
    requires AsciiSpace(isSpace) && Allocatable(a) && Allocatable(b) && Written(a) == Written(b)
    ensures a == b
  {
    WriterReaderRoundTrip(isSpace, a);
    WriterReaderRoundTrip(isSpace, b);
  }

  // ---- A stream that ends early ---------------------------------------------------------------------------

  lemma {:induction false} LineEndExtends(s: string, t: string)
    requires LineEnd(s).Some?
    ensures LineEnd(s + t) == LineEnd(s)
  {
    var k := LineEnd(s).value;
    LineEndIsFirst(s);
    LineEndOf(s[..k], s[k + 1..] + t);
    assert s + t == s[..k] + "\n" + (s[k + 1..] + t);
  }

  /** More bytes never change a header that was already complete. */
  lemma {:induction false} HeadExtends(isSpace: char -> bool, s: string, t: string, length: int)
    requires ReadHead(isSpace, s, length).Some?
    ensures var h := ReadHead(isSpace, s, length).value;
      ReadHead(isSpace, s + t, length) == Some(Head(h.length, h.rest + t))
    decreases |s|
  {
    LineEndExtends(s, t);
    var k := LineEnd(s).value;
    assert (s + t)[..k + 1] == s[..k + 1] && (s + t)[k + 1..] == s[k + 1..] + t;
    var line := Text.TrimSpace(isSpace, s[..k + 1]);
    if line != "" {
      HeadExtends(isSpace, s[k + 1..], t, LengthAfter(line, length));
    }
  }

  /** Of any stream at all: what was handed on is never taken back, whatever arrives later. */
  lemma {:induction false} ReadExtends(isSpace: char -> bool, s: string, t: string)
    ensures Read(isSpace, s).bodies <= Read(isSpace, s + t).bodies
    ensures Read(isSpace, s).end == Panicked ==> Read(isSpace, s + t) == Read(isSpace, s)
    decreases |s|
  {
    var h := ReadHead(isSpace, s, 0);
    if h.Some? {
      HeadExtends(isSpace, s, t, 0);
      var rest, n := h.value.rest, h.value.length;
      if 0 <= n <= |rest| {
        assert (rest + t)[..n] == rest[..n] && (rest + t)[n..] == rest[n..] + t;
        ReadExtends(isSpace, rest[n..], t);
      }
    }
  }

  lemma CutHead(isSpace: char -> bool, cut: string, missing: string, h: Head, body: string)
    requires ReadHead(isSpace, cut, 0) == Some(h) && missing != ""
    requires ReadHead(isSpace, cut + missing, 0) == Some(Head(|body|, body))
    ensures |h.rest| < h.length == |body|
  {
    HeadExtends(isSpace, cut, missing, 0);
    assert body == h.rest + missing;
  }

  lemma Rejoined(s: string, k: nat)
    requires k < |s|
    ensures s[..k] + s[k..] == s && s[k..] != ""
  {}

  lemma CutMessage(isSpace: char -> bool, m: Message, k: nat)
    requires AsciiSpace(isSpace) && Conforming(isSpace, m) && Fits(m) && k < |Render(m)|
    ensures Read(isSpace, Render(m)[..k]) == Reading([], Disconnected)
  {
    var cut, missing := Render(m)[..k], Render(m)[k..];
    var h := ReadHead(isSpace, cut, 0);
    if h.Some? {
      WholeHead(isSpace, m);
      Rejoined(Render(m), k);
      CutHead(isSpace, cut, missing, h.value, m.body);
    }
  }

  lemma WholeHead(isSpace: char -> bool, m: Message)
    requires AsciiSpace(isSpace) && Conforming(isSpace, m) && Fits(m)
    ensures ReadHead(isSpace, Render(m), 0) == Some(Head(|m.body|, m.body))
  {
    HeadOfMessage(isSpace, m, "");
    assert Render(m) + "" == Render(m) && m.body + "" == m.body;
  }

  /** The messages that arrive whole within the first k bytes. */
  function Whole(ms: seq<Message>, k: nat): seq<Message> {
    if ms == [] || k < |Render(ms[0])| then [] else [ms[0]] + Whole(ms[1..], k - |Render(ms[0])|)
  }

  /** When the server dies in mid-stream, the reader has handed on exactly the messages that arrived whole,
      never a fragment, and reports the disconnect. */
  lemma {:induction false} TruncatedStream(isSpace: char -> bool, ms: seq<Message>, k: nat)
    requires AsciiSpace(isSpace) && forall m :: m in ms ==> Conforming(isSpace, m) && Fits(m)
    requires k <= |Stream(ms)|
    ensures Read(isSpace, Stream(ms)[..k]) == Reading(Bodies(Whole(ms, k)), Disconnected)
    decreases |ms|
  {
    if ms == [] {
    } else if k < |Render(ms[0])| {
      assert Stream(ms)[..k] == Render(ms[0])[..k];
      CutMessage(isSpace, ms[0], k);
    } else {
      var j := k - |Render(ms[0])|;
      assert Stream(ms)[..k] == Render(ms[0]) + Stream(ms[1..])[..j];
      ReadRendered(isSpace, ms[0], Stream(ms[1..])[..j]);
      TruncatedStream(isSpace, ms[1..], j);
    }
  }
}
