/** The language-server client as a shared-state protocol (internal/lsp/client.go).

    Every step below is one stretch of code between taking and releasing the manager's mutex, one choice of a
    caller's select statement, or the start of a reader, so a list of steps is an interleaving of any number
    of callers, readers and shutdowns. A caller takes the mutex once to see that a server runs and again to
    send its request, and anything can happen in between. The caller that starts a server sends it initialize
    before it lets go of the mutex, and takes it again for the initialized notification when the answer is
    there. A call owns a channel of capacity one; the channel is kept as the whole history of what was sent on
    it, so nothing that happened to it is forgotten. */
module LspProtocol {
  import opened Wrappers

  /** A channel: every body ever sent on it, how many were received, and how often it was closed. */
  datatype Chan<B> = Chan(sent: seq<B>, taken: nat, closes: nat) {
    predicate Open() { closes == 0 }
    predicate Full() { |sent| > taken }
  }

  datatype Outcome<B> = Waiting | Replied(body: B) | Disconnected | Cancelled | Died

  /** `starter` marks the initialize request of a caller that has started a server and is not let in yet. */
  datatype Call<B> = Call(id: int, chan: Chan<B>, outcome: Outcome<B>, starter: bool)

  /** The manager's fields, with the calls begun so far; a pending entry names a call by its place. A caller
      that was let in holds a ticket, with which it takes the mutex again for its request or notification;
      tickets are numbered in the order they are given out. */
  datatype State<B> = State(
    running: bool, stopping: bool, generation: nat, entered: nat,
    counter: nat, pending: map<int, nat>, calls: seq<Call<B>>)

  /** What each step does and where it is in the source:
      EnsureStarted finds a server and lets the caller in (Enter, 69-76), finds none and cannot start one
      (TurnedAway, 78-100), or starts one and sends initialize (Start, 102-111 and 164-188; whether it can be
      written). The starter goes on when initialize is answered: it sends the notification and is let in
      (Initialized, 111 and 140-146), or the server's input is gone and it panics (InitializedDies, 250).
      The second visit of a ticket's holder is MarshalFails (159-178), WriteFails (180-186), Begin (180-188),
      Dies (250, with its id drawn and registered), Notify or NotifyDies (224-237 and 250).
      A reader takes the server's output when it begins (ReaderBegins, 260), or finds none and panics
      (ReaderDies). Receive (191-208), Cancel (209-211), Deliver (286-302), Disconnect (316-324), IdleTick
      (339-357), Stop (359-366). A notification that cannot be written leaves no trace and is no step of its
      own. Where something above a panic recovers, the client goes on. */
  datatype Step<B> =
    | Enter
    | TurnedAway
    | Start(writes: bool)
    | Initialized(call: nat)
    | InitializedDies(call: nat)
    | MarshalFails(ticket: nat)
    | WriteFails(ticket: nat)
    | Begin(ticket: nat)
    | Dies(ticket: nat)
    | Notify(ticket: nat)
    | NotifyDies(ticket: nat)
    | Receive(call: nat)
    | Cancel(call: nat)
    | ReaderBegins(reader: nat)
    | ReaderDies(reader: nat)
    | Deliver(body: B)
    | Disconnect(reader: nat)
    | IdleTick(idle: bool)
    | Stop

  function Init<B>(): State<B> {
    State(false, false, 0, 0, 0, map[], [])
  }

  /** The initialize request of a starter that has its answer and is not let in yet. */
  predicate Initializing<B>(s: State<B>, h: nat) {
    h < |s.calls| && s.calls[h].starter && s.calls[h].outcome.Replied?
  }

  /** Something is written if a server is still running, and its caller dies if not; a reader exists once its
      server was started; a caller's select fires only while the caller waits. */
  predicate Enabled<B>(s: State<B>, step: Step<B>) {
    match step
    case Enter => s.running
    case TurnedAway => !s.running
    case Start(_) => !s.running
    case Initialized(h) => Initializing(s, h) && s.running
    case InitializedDies(h) => Initializing(s, h) && !s.running
    case MarshalFails(k) => k < s.entered
    case WriteFails(k) => k < s.entered && s.running
    case Begin(k) => k < s.entered && s.running
    case Dies(k) => k < s.entered && !s.running
    case Notify(k) => k < s.entered && s.running
    case NotifyDies(k) => k < s.entered && !s.running
    case Receive(h) =>
      h < |s.calls| && s.calls[h].outcome.Waiting? && (s.calls[h].chan.Full() || !s.calls[h].chan.Open())
    case Cancel(h) => h < |s.calls| && s.calls[h].outcome.Waiting?
    case ReaderBegins(reader) => 0 < reader <= s.generation && s.running
    case ReaderDies(reader) => 0 < reader <= s.generation && !s.running
    case Disconnect(reader) => 0 < reader <= s.generation
    case _ => true
  }

  function Send<B>(c: Call<B>, body: B): Call<B> {
    c.(chan := c.chan.(sent := c.chan.sent + [body]))
  }

  function Close<B>(c: Call<B>): Call<B> {
    c.(chan := c.chan.(closes := c.chan.closes + 1))
  }

  /** The waiting caller takes the buffered body, or learns that the channel was closed. */
  function Take<B>(c: Call<B>): Call<B> {
    if c.chan.Full() then
      c.(chan := c.chan.(taken := c.chan.taken + 1), outcome := Replied(c.chan.sent[c.chan.taken]))
    else
      c.(outcome := Disconnected)
  }

  predicate Awaited<B>(s: State<B>, h: nat)
    requires h < |s.calls|
  {
    s.calls[h].id in s.pending && s.pending[s.calls[h].id] == h
  }

  /** cleanupLocked, lines 326-337: every pending channel is closed and the table emptied. */
  function Cleaned<B>(s: State<B>): State<B> {
    s.(running := false, pending := map[],
       calls := seq(|s.calls|, h requires 0 <= h < |s.calls| =>
         if Awaited(s, h) then Close(s.calls[h]) else s.calls[h]))
  }

  /** Lines 292-301: the answer goes to the call registered under its id, if there is one. */
  function Delivered<B>(idOf: B -> Option<int>, s: State<B>, body: B): State<B> {
    var id := idOf(body);
    if id.Some? && id.value in s.pending && s.pending[id.value] < |s.calls| then
      var h := s.pending[id.value];
      s.(pending := s.pending - {id.value}, calls := s.calls[h := Send(s.calls[h], body)])
    else
      s
  }

  /** Lines 102-105: a new server. */
  function Launched<B>(s: State<B>): State<B> {
    s.(running := true, stopping := false, generation := s.generation + 1)
  }

  /** Lines 165-181: the call is in the table before anything is written. */
  function Registered<B>(s: State<B>, outcome: Outcome<B>, starter: bool): State<B> {
    var id := s.counter + 1;
    s.(counter := id, pending := s.pending[id := |s.calls|],
       calls := s.calls + [Call(id, Chan([], 0, 0), outcome, starter)])
  }

  /** callLocked up to its select (lines 164-188): what becomes of the table when a request can be encoded or
      not, and written or not. */
  function Requested<B>(s: State<B>, encodes: bool, writes: bool, starter: bool): State<B> {
    if encodes && !s.running then Registered(s, Died, starter)
    else if encodes && writes then Registered(s, Waiting, starter)
    else s.(counter := s.counter + 1)
  }

  function NotStarter<B>(s: State<B>, h: nat): State<B>
    requires h < |s.calls|
  {
    s.(calls := s.calls[h := s.calls[h].(starter := false)])
  }

  function Next<B>(idOf: B -> Option<int>, s: State<B>, step: Step<B>): State<B>
    requires Enabled(s, step)
  {
    match step
    case Enter => s.(entered := s.entered + 1)
    case Start(writes) => Requested(Launched(s), true, writes, true)
    case Initialized(h) => NotStarter(s, h).(entered := s.entered + 1)
    case InitializedDies(h) => NotStarter(s, h)
    case MarshalFails(k) => Requested(s, false, true, false)
    case WriteFails(k) => Requested(s, true, false, false)
    case Begin(k) => Requested(s, true, true, false)
    case Dies(k) => Requested(s, true, true, false)
    case Receive(h) => s.(calls := s.calls[h := Take(s.calls[h])])
    case Cancel(h) => s.(calls := s.calls[h := s.calls[h].(outcome := Cancelled)])
    case Deliver(body) => Delivered(idOf, s, body)
    case Disconnect(reader) => if s.stopping then s else Cleaned(s)
    case IdleTick(idle) => if s.running && idle then Cleaned(s.(stopping := true)) else s
    case Stop => Cleaned(s.(stopping := true))
    case _ => s
  }

  /** The state a run of steps ends in, from the manager as constructed; None if a step cannot happen. */
  function After<B>(idOf: B -> Option<int>, steps: seq<Step<B>>): Option<State<B>>
    decreases |steps|
  {
    if steps == [] then Some(Init())
    else
      var s := After(idOf, steps[..|steps| - 1]);
      var step := steps[|steps| - 1];
      if s.Some? && Enabled(s.value, step) then Some(Next(idOf, s.value, step)) else None
  }

  // ---- What every reachable state satisfies ------------------------------------------------------------

  /** Every call has an id of its own, in the order the calls were begun, none of them zero. */
  ghost predicate IdsFresh<B>(s: State<B>) {
    && (forall h :: 0 <= h < |s.calls| ==> 0 < s.calls[h].id <= s.counter)
    && (forall g, h :: 0 <= g < h < |s.calls| ==> s.calls[g].id < s.calls[h].id)
  }

  ghost predicate PendingOpen<B>(s: State<B>) {
    forall id :: id in s.pending ==>
      && s.pending[id] < |s.calls|
      && s.calls[s.pending[id]].id == id
      && s.calls[s.pending[id]].chan == Chan([], 0, 0)
  }

  /** A channel sees one body or one close in its life, or neither; and a body it saw answers its call. */
  ghost predicate OneAnswer<B>(idOf: B -> Option<int>, c: Call<B>) {
    && |c.chan.sent| + c.chan.closes <= 1
    && c.chan.taken <= |c.chan.sent|
    && (forall k :: 0 <= k < |c.chan.sent| ==> idOf(c.chan.sent[k]) == Some(c.id))
    && (c.outcome.Replied? ==> c.chan.sent == [c.outcome.body])
    && (c.outcome.Disconnected? ==> c.chan.closes == 1)
    && (c.outcome.Waiting? ==> c.chan.taken == 0)
  }

  /** No lost wake-up: a caller still waiting is either registered, or can take its answer now. */
  ghost predicate Wakeable<B>(s: State<B>, h: nat)
    requires h < |s.calls|
  {
    s.calls[h].outcome.Waiting? ==> Awaited(s, h) || Enabled(s, Receive(h))
  }

  /** While no server runs, only calls that died are registered. */
  ghost predicate ShutIsEmpty<B>(s: State<B>) {
    && (s.stopping ==> !s.running)
    && (!s.running ==> forall id :: id in s.pending ==> DeadEntry(s, id))
  }

  ghost predicate DeadEntry<B>(s: State<B>, id: int)
    requires id in s.pending
  {
    s.pending[id] < |s.calls| && s.calls[s.pending[id]].outcome.Died?
  }

  ghost predicate Sound<B>(idOf: B -> Option<int>, s: State<B>) {
    && IdsFresh(s)
    && PendingOpen(s)
    && ShutIsEmpty(s)
    && (forall h :: 0 <= h < |s.calls| ==> OneAnswer(idOf, s.calls[h]))
    && (forall h :: 0 <= h < |s.calls| ==> Wakeable(s, h))
  }

  lemma CleanedSound<B>(idOf: B -> Option<int>, s: State<B>)
    requires Sound(idOf, s)
    ensures Sound(idOf, Cleaned(s))
  {
    var t := Cleaned(s);
    forall h: nat | h < |t.calls|
      ensures t.calls[h].id == s.calls[h].id && OneAnswer(idOf, t.calls[h]) && Wakeable(t, h)
    {
      assert Wakeable(s, h) && OneAnswer(idOf, s.calls[h]);
    }
  }

  lemma DeliveredSound<B>(idOf: B -> Option<int>, s: State<B>, body: B)
    requires Sound(idOf, s)
    ensures Sound(idOf, Delivered(idOf, s, body))
  {
    var t := Delivered(idOf, s, body);
    var id := idOf(body);
    if id.None? || id.value !in s.pending { return; }
    var to := s.pending[id.value];
    PendingAt(s, id.value);
    assert [] + [body] == [body];
    assert t.calls[to].chan == Chan([body], 0, 0);
    forall h: nat | h < |t.calls|
      ensures t.calls[h].id == s.calls[h].id && OneAnswer(idOf, t.calls[h]) && Wakeable(t, h)
    {
      assert Wakeable(s, h) && OneAnswer(idOf, s.calls[h]);
    }
  }

  /** One step keeps all of it, whichever step it is. */
  lemma StepSound<B>(idOf: B -> Option<int>, s: State<B>, step: Step<B>)
    requires Sound(idOf, s) && Enabled(s, step)
    ensures Sound(idOf, Next(idOf, s, step))
  {
    match step
    case Start(writes) => StartedSound(idOf, s, writes);
    case Initialized(h) => LetInSound(idOf, s, h);
    case InitializedDies(h) => LetInSound(idOf, s, h);
    case Deliver(body) => DeliveredSound(idOf, s, body);
    case Disconnect(_) => CleanedSound(idOf, s);
    case IdleTick(_) => StoppedSound(idOf, s);
    case Stop => StoppedSound(idOf, s);
    case MarshalFails(_) => RequestedSound(idOf, s, false, true, false);
    case WriteFails(_) => RequestedSound(idOf, s, true, false, false);
    case Begin(_) => RequestedSound(idOf, s, true, true, false);
    case Dies(_) => RequestedSound(idOf, s, true, true, false);
    case Receive(h) => CallerSound(idOf, s, h, Take(s.calls[h]));
    case Cancel(h) => CallerSound(idOf, s, h, s.calls[h].(outcome := Cancelled));
    case _ => SameCallsSound(idOf, s, Next(idOf, s, step));
  }

  lemma SameCallsSound<B>(idOf: B -> Option<int>, s: State<B>, t: State<B>)
    requires Sound(idOf, s) && t.calls == s.calls && t.pending == s.pending && t.counter >= s.counter
    requires ShutIsEmpty(t)
    ensures Sound(idOf, t)
  {
    forall h: nat | h < |t.calls| ensures Wakeable(t, h) {
      assert Wakeable(s, h);
    }
  }

  lemma StoppedSound<B>(idOf: B -> Option<int>, s: State<B>)
    requires Sound(idOf, s)
    ensures Sound(idOf, Cleaned(s.(stopping := true)))
  {
    CleanedSound(idOf, s);
    var t := Cleaned(s.(stopping := true));
    assert t.calls == Cleaned(s).calls;
    SameCallsSound(idOf, Cleaned(s), t);
  }

  lemma LaunchedSound<B>(idOf: B -> Option<int>, s: State<B>)
    requires Sound(idOf, s)
    ensures Sound(idOf, Launched(s))
  {
    SameCallsSound(idOf, s, Launched(s));
  }

  lemma StartedSound<B>(idOf: B -> Option<int>, s: State<B>, writes: bool)
    requires Sound(idOf, s)
    ensures Sound(idOf, Requested(Launched(s), true, writes, true))
  {
    LaunchedSound(idOf, s);
    RequestedSound(idOf, Launched(s), true, writes, true);
  }

  lemma RequestedSound<B>(idOf: B -> Option<int>, s: State<B>, encodes: bool, writes: bool, starter: bool)
    requires Sound(idOf, s)
    ensures Sound(idOf, Requested(s, encodes, writes, starter))
  {
    if encodes && !s.running {
      RegisteredSound(idOf, s, Died, starter);
    } else if encodes && writes {
      RegisteredSound(idOf, s, Waiting, starter);
    } else {
      SameCallsSound(idOf, s, s.(counter := s.counter + 1));
    }
  }

  lemma LetInTables<B>(s: State<B>, h: nat)
    requires IdsFresh(s) && PendingOpen(s) && ShutIsEmpty(s) && h < |s.calls|
    ensures IdsFresh(NotStarter(s, h)) && PendingOpen(NotStarter(s, h)) && ShutIsEmpty(NotStarter(s, h))
  {
    var t := NotStarter(s, h);
    forall id | id in t.pending && !t.running ensures DeadEntry(t, id) {
      assert DeadEntry(s, id);
    }
  }

  /** Whether a call is a starter's concerns nothing else. */
  lemma LetInSound<B>(idOf: B -> Option<int>, s: State<B>, h: nat)
    requires Sound(idOf, s) && h < |s.calls|
    ensures Sound(idOf, NotStarter(s, h))
    ensures Sound(idOf, NotStarter(s, h).(entered := s.entered + 1))
  {
    var t := NotStarter(s, h);
    LetInTables(s, h);
    forall g: nat | g < |t.calls| ensures OneAnswer(idOf, t.calls[g]) && Wakeable(t, g) {
      assert OneAnswer(idOf, s.calls[g]) && Wakeable(s, g);
    }
    SameCallsSound(idOf, t, t.(entered := s.entered + 1));
  }

  lemma RegisteredTables<B>(idOf: B -> Option<int>, s: State<B>, outcome: Outcome<B>, starter: bool)
    requires Sound(idOf, s) && outcome == if s.running then Waiting else Died
    ensures IdsFresh(Registered(s, outcome, starter)) && PendingOpen(Registered(s, outcome, starter))
    ensures ShutIsEmpty(Registered(s, outcome, starter))
  {
    var t := Registered(s, outcome, starter);
    forall id | id in t.pending && !t.running ensures DeadEntry(t, id) {
      assert id != s.counter + 1 ==> DeadEntry(s, id);
    }
  }

  lemma RegisteredSound<B>(idOf: B -> Option<int>, s: State<B>, outcome: Outcome<B>, starter: bool)
    requires Sound(idOf, s) && outcome == if s.running then Waiting else Died
    ensures Sound(idOf, Registered(s, outcome, starter))
  {
    var t := Registered(s, outcome, starter);
    RegisteredTables(idOf, s, outcome, starter);
    forall h: nat | h < |s.calls| ensures t.calls[h] == s.calls[h] && Wakeable(t, h) {
      assert Wakeable(s, h);
    }
    assert Wakeable(t, |s.calls|);
    assert OneAnswer(idOf, t.calls[|s.calls|]);
  }

  /** A caller that stops waiting changes nothing but its own call. */
  lemma CallerSound<B>(idOf: B -> Option<int>, s: State<B>, h: nat, c: Call<B>)
    requires Sound(idOf, s) && h < |s.calls| && s.calls[h].outcome.Waiting?
    requires (c == Take(s.calls[h]) && Enabled(s, Receive(h))) || c == s.calls[h].(outcome := Cancelled)
    ensures Sound(idOf, s.(calls := s.calls[h := c]))
  {
    var t := s.(calls := s.calls[h := c]);
    assert OneAnswer(idOf, s.calls[h]) && OneAnswer(idOf, c);
    forall g: nat | g < |t.calls| ensures Wakeable(t, g) {
      assert Wakeable(s, g);
    }
  }

  /** Every interleaving of calls, answers, cancellations, disconnects and stops keeps the tables sound. */
  lemma {:induction false} ReachableSound<B>(idOf: B -> Option<int>, steps: seq<Step<B>>)
    requires After(idOf, steps).Some?
    ensures Sound(idOf, After(idOf, steps).value)
    decreases |steps|
  {
    if steps != [] {
      var before := steps[..|steps| - 1];
      ReachableSound(idOf, before);
      StepSound(idOf, After(idOf, before).value, steps[|steps| - 1]);
    }
  }

  lemma FreshId<B>(idOf: B -> Option<int>, s: State<B>, id: int)
    requires Sound(idOf, s) && id > s.counter
    ensures id !in s.pending
  {}

  // ---- What becomes of one call --------------------------------------------------------------------------

  datatype Fate<B> = Unborn | Unanswered | Answered(body: B) | Shut

  predicate TakesId<B>(step: Step<B>) {
    step.Start? || step.MarshalFails? || step.WriteFails? || step.Begin? || step.Dies?
  }

  /** The steps that send a request. */
  predicate Begins<B>(step: Step<B>) {
    step.Begin? || (step.Start? && step.writes)
  }

  function IdsTaken<B>(steps: seq<Step<B>>): nat
    decreases |steps|
  {
    if steps == [] then 0
    else IdsTaken(steps[..|steps| - 1]) + if TakesId(steps[|steps| - 1]) then 1 else 0
  }

  predicate ShutsDown<B>(step: Step<B>) {
    step.Disconnect? || step.Stop? || (step.IdleTick? && step.idle)
  }

  predicate Answers<B>(idOf: B -> Option<int>, id: int, step: Step<B>) {
    step.Deliver? && idOf(step.body) == Some(id)
  }

  /** One call on its own, knowing nothing of the table: it opens when its id is drawn for a request
      that is sent, and the first answer or the first shutdown after that settles it for good. */
  function FateOf<B>(idOf: B -> Option<int>, steps: seq<Step<B>>, id: int): Fate<B>
    decreases |steps|
  {
    if steps == [] then Unborn
    else
      var before := steps[..|steps| - 1];
      FateStep(idOf, id, IdsTaken(before), FateOf(idOf, before, id), steps[|steps| - 1])
  }

  function FateStep<B>(idOf: B -> Option<int>, id: int, taken: nat, f: Fate<B>, step: Step<B>): Fate<B> {
    if Begins(step) && taken + 1 == id then Unanswered
    else if f.Unanswered? && Answers(idOf, id, step) then Answered(step.body)
    else if f.Unanswered? && ShutsDown(step) then Shut
    else f
  }

  /** A call that died never opened; of any other, the channel shows its fate. */
  ghost predicate Meets<B>(s: State<B>, h: nat, f: Fate<B>)
    requires h < |s.calls|
  {
    if s.calls[h].outcome.Died? then f == Unborn
    else match f
    case Unborn => false
    case Unanswered => Awaited(s, h)
    case Answered(b) => !Awaited(s, h) && s.calls[h].chan.sent == [b] && s.calls[h].chan.closes == 0
    case Shut => !Awaited(s, h) && s.calls[h].chan.sent == [] && s.calls[h].chan.closes == 1
  }

  lemma CounterCountsIds<B>(idOf: B -> Option<int>, steps: seq<Step<B>>)
    requires After(idOf, steps).Some?
    ensures After(idOf, steps).value.counter == IdsTaken(steps)
    decreases |steps|
  {
    if steps != [] {
      CounterCountsIds(idOf, steps[..|steps| - 1]);
    }
  }

  lemma ShutMeets<B>(idOf: B -> Option<int>, s: State<B>, step: Step<B>, h: nat, f: Fate<B>)
    requires Sound(idOf, s) && Enabled(s, step) && ShutsDown(step) && h < |s.calls| && Meets(s, h, f)
    ensures var t := Next(idOf, s, step);
      && |t.calls| == |s.calls| && t.calls[h].id == s.calls[h].id
      && Meets(t, h, FateStep(idOf, s.calls[h].id, s.counter, f, step))
  {
    if !s.running && Awaited(s, h) {
      assert DeadEntry(s, s.calls[h].id);
    }
  }

  lemma StepMeets<B>(idOf: B -> Option<int>, s: State<B>, step: Step<B>, h: nat, f: Fate<B>)
    requires Sound(idOf, s) && Enabled(s, step) && h < |s.calls| && Meets(s, h, f)
    ensures h < |Next(idOf, s, step).calls| && Next(idOf, s, step).calls[h].id == s.calls[h].id
    ensures Meets(Next(idOf, s, step), h, FateStep(idOf, s.calls[h].id, s.counter, f, step))
  {
    assert 0 < s.calls[h].id <= s.counter;
    if step.Deliver? {
      DeliveryMeets(idOf, s, step.body, h, f);
    } else if ShutsDown(step) {
      ShutMeets(idOf, s, step, h, f);
    } else if step.Start? {
      RequestMeets(idOf, Launched(s), true, step.writes, true, h, f);
    } else if TakesId(step) {
      RequestMeets(idOf, s, !step.MarshalFails?, !step.WriteFails?, false, h, f);
    } else {
      OtherMeets(idOf, s, step, h, f);
    }
  }

  lemma OtherMeets<B>(idOf: B -> Option<int>, s: State<B>, step: Step<B>, h: nat, f: Fate<B>)
    requires Sound(idOf, s) && Enabled(s, step) && h < |s.calls| && Meets(s, h, f)
    requires !step.Deliver? && !ShutsDown(step) && !TakesId(step)
    ensures h < |Next(idOf, s, step).calls| && Next(idOf, s, step).calls[h].id == s.calls[h].id
    ensures Meets(Next(idOf, s, step), h, f)
  {}

  /** Another request changes nothing for a call. */
  lemma RequestMeets<B>(idOf: B -> Option<int>, s: State<B>, encodes: bool, writes: bool, starter: bool, h: nat,
                        f: Fate<B>)
    requires IdsFresh(s) && PendingOpen(s) && h < |s.calls| && Meets(s, h, f)
    ensures var t := Requested(s, encodes, writes, starter);
      h < |t.calls| && t.calls[h] == s.calls[h] && Meets(t, h, f)
  {}

  lemma PendingAt<B>(s: State<B>, id: int)
    requires PendingOpen(s) && id in s.pending
    ensures s.pending[id] < |s.calls| && s.calls[s.pending[id]].id == id
    ensures s.calls[s.pending[id]].chan == Chan([], 0, 0)
  {}

  lemma DeliveryMeets<B>(idOf: B -> Option<int>, s: State<B>, body: B, h: nat, f: Fate<B>)
    requires Sound(idOf, s) && h < |s.calls| && Meets(s, h, f)
    ensures h < |Delivered(idOf, s, body).calls|
    ensures Meets(Delivered(idOf, s, body), h, FateStep(idOf, s.calls[h].id, s.counter, f, Deliver(body)))
  {
    var id := idOf(body);
    if id.None? || id.value !in s.pending { return; }
    var to := s.pending[id.value];
    PendingAt(s, id.value);
    assert s.calls[to].chan == Chan([], 0, 0) && s.calls[to].id == id.value;
    assert [] + [body] == [body];
    assert h != to ==> s.calls[h].id != s.calls[to].id;
  }

  /** The shared table, the interleaving and the other calls do not matter to a call: in every run its
      channel shows exactly what the run's answers under its id and shutdowns say. */
  lemma {:induction false} FateDecides<B>(idOf: B -> Option<int>, steps: seq<Step<B>>, h: nat)
    requires After(idOf, steps).Some? && h < |After(idOf, steps).value.calls|
    ensures Meets(After(idOf, steps).value, h, FateOf(idOf, steps, After(idOf, steps).value.calls[h].id))
    decreases |steps|
  {
    var before, step := steps[..|steps| - 1], steps[|steps| - 1];
    var s := After(idOf, before).value;
    CounterCountsIds(idOf, before);
    ReachableSound(idOf, before);
    if h < |s.calls| {
      FateDecides(idOf, before, h);
      StepMeets(idOf, s, step, h, FateOf(idOf, before, s.calls[h].id));
    } else {
      UnbornBefore(idOf, before, s.counter + 1);
      NewCallMeets(idOf, s, step);
    }
  }

  lemma {:induction false} UnbornBefore<B>(idOf: B -> Option<int>, steps: seq<Step<B>>, id: int)
    requires id > IdsTaken(steps)
    ensures FateOf(idOf, steps, id) == Unborn
    decreases |steps|
  {
    if steps != [] {
      UnbornBefore(idOf, steps[..|steps| - 1], id);
    }
  }

  lemma NewCallMeets<B>(idOf: B -> Option<int>, s: State<B>, step: Step<B>)
    requires Sound(idOf, s) && Enabled(s, step) && |Next(idOf, s, step).calls| > |s.calls|
    ensures var t := Next(idOf, s, step);
      && |t.calls| == |s.calls| + 1 && t.calls[|s.calls|].id == s.counter + 1
      && Meets(t, |s.calls|, FateStep(idOf, s.counter + 1, s.counter, Unborn, step))
  {}

  ghost predicate SeesFate<B>(idOf: B -> Option<int>, c: Call<B>, f: Fate<B>) {
    && (c.outcome.Replied? ==> f == Answered(c.outcome.body) && idOf(c.outcome.body) == Some(c.id))
    && (c.outcome.Disconnected? ==> f == Shut)
  }

  lemma OutcomeMeetsFate<B>(idOf: B -> Option<int>, s: State<B>, h: nat, f: Fate<B>)
    requires Sound(idOf, s) && h < |s.calls| && Meets(s, h, f)
    ensures SeesFate(idOf, s.calls[h], f)
  {
    var c := s.calls[h];
    assert OneAnswer(idOf, c);
    if Awaited(s, h) {
      PendingAt(s, c.id);
    } else if c.outcome.Replied? {
      assert c.chan.sent[0] == c.outcome.body;
    }
  }

  /** A caller that received a body got the first answer to its own id, and a caller that saw its channel
      closed had no answer before the first shutdown. */
  lemma CallerSeesItsFate<B>(idOf: B -> Option<int>, steps: seq<Step<B>>, h: nat)
    requires After(idOf, steps).Some? && h < |After(idOf, steps).value.calls|
    ensures var c := After(idOf, steps).value.calls[h]; SeesFate(idOf, c, FateOf(idOf, steps, c.id))
  {
    var s := After(idOf, steps).value;
    FateDecides(idOf, steps, h);
    ReachableSound(idOf, steps);
    OutcomeMeetsFate(idOf, s, h, FateOf(idOf, steps, s.calls[h].id));
  }

  /** The answer that settles a call: begun at step i under this id, answered at step j, nothing in
      between that answers or shuts down. Whatever happens later, the call is answered by that body. */
  lemma {:induction false} FirstAnswerCounts<B>(idOf: B -> Option<int>, steps: seq<Step<B>>, i: nat, j: nat)
    requires i < j < |steps| && Begins(steps[i]) && Answers(idOf, IdsTaken(steps[..i]) + 1, steps[j])
    requires forall k :: i < k < j ==> !ShutsDown(steps[k]) && !Answers(idOf, IdsTaken(steps[..i]) + 1, steps[k])
    ensures FateOf(idOf, steps, IdsTaken(steps[..i]) + 1) == Answered(steps[j].body)
    decreases |steps|
  {
    var last := |steps| - 1;
    var before := steps[..last];
    assert before[..i] == steps[..i];
    IdsGrow(steps, i, last);
    if j < last {
      FirstAnswerCounts(idOf, before, i, j);
    } else {
      StaysUnanswered(idOf, before, i);
    }
  }

  lemma {:induction false} IdsGrow<B>(steps: seq<Step<B>>, i: nat, j: nat)
    requires i < j <= |steps| && TakesId(steps[i])
    ensures IdsTaken(steps[..i]) + 1 <= IdsTaken(steps[..j])
    decreases j
  {
    assert steps[..j][..j - 1] == steps[..j - 1];
    if i < j - 1 {
      IdsGrow(steps, i, j - 1);
    }
  }

  lemma {:induction false} StaysUnanswered<B>(idOf: B -> Option<int>, steps: seq<Step<B>>, i: nat)
    requires i < |steps| && Begins(steps[i])
    requires forall k :: i < k < |steps| ==> !ShutsDown(steps[k]) && !Answers(idOf, IdsTaken(steps[..i]) + 1, steps[k])
    ensures FateOf(idOf, steps, IdsTaken(steps[..i]) + 1).Unanswered?
    decreases |steps|
  {
    var last := |steps| - 1;
    var before := steps[..last];
    assert before[..i] == steps[..i];
    if i < last {
      StaysUnanswered(idOf, before, i);
      IdsGrow(steps, i, last);
    }
  }

  ghost predicate NoneDied<B>(s: State<B>) {
    forall h :: 0 <= h < |s.calls| ==> !s.calls[h].outcome.Died?
  }

  /** Whatever shuts the client down, in any reachable state, every waiting caller can go on at once, and
      nothing stays registered but calls that died. In particular the early return of handleDisconnect
      strands nobody. */
  lemma ShutdownWakesEveryone<B>(idOf: B -> Option<int>, steps: seq<Step<B>>, step: Step<B>)
    requires After(idOf, steps).Some? && ShutsDown(step) && Enabled(After(idOf, steps).value, step)
    ensures var t := Next(idOf, After(idOf, steps).value, step);
      && (forall id :: id in t.pending ==> DeadEntry(t, id))
      && (NoneDied(t) ==> t.pending == map[])
      && forall h: nat :: h < |t.calls| && t.calls[h].outcome.Waiting? ==> Enabled(t, Receive(h))
  {
    ReachableSound(idOf, steps);
    var s := After(idOf, steps).value;
    StepSound(idOf, s, step);
    var t := Next(idOf, s, step);
    if NoneDied(t) {
      NoEntryWhenNoneDied(t);
    }
    forall h: nat | h < |t.calls| && t.calls[h].outcome.Waiting? ensures Enabled(t, Receive(h)) {
      assert Wakeable(t, h);
      assert Awaited(t, h) ==> DeadEntry(t, t.calls[h].id);
    }
  }

  lemma NoEntryWhenNoneDied<B>(s: State<B>)
    requires ShutIsEmpty(s) && !s.running && NoneDied(s)
    ensures s.pending == map[]
  {
    forall id ensures id !in s.pending {
      if id in s.pending {
        assert false;
      }
    }
    assert s.pending.Keys == {};
  }

  // ---- Between a caller's two visits ----------------------------------------------------------------------

  predicate Starts<B>(step: Step<B>) {
    step.Start?
  }

  /** Whether a server runs, told by the last step that starts or shuts. */
  function Up<B>(steps: seq<Step<B>>): bool
    decreases |steps|
  {
    if steps == [] then false
    else if ShutsDown(steps[|steps| - 1]) then false
    else Starts(steps[|steps| - 1]) || Up(steps[..|steps| - 1])
  }

  lemma {:induction false} RunningIsUp<B>(idOf: B -> Option<int>, steps: seq<Step<B>>)
    requires After(idOf, steps).Some?
    ensures After(idOf, steps).value.running == Up(steps)
    decreases |steps|
  {
    if steps != [] {
      var before := steps[..|steps| - 1];
      RunningIsUp(idOf, before);
      ReachableSound(idOf, before);
    }
  }

  lemma {:induction false} PrefixRuns<B>(idOf: B -> Option<int>, steps: seq<Step<B>>, k: nat)
    requires After(idOf, steps).Some? && k <= |steps|
    ensures After(idOf, steps[..k]).Some?
    ensures k < |steps| ==> Enabled(After(idOf, steps[..k]).value, steps[k])
    decreases |steps|
  {
    if k == |steps| {
      assert steps[..k] == steps;
    } else if k < |steps| - 1 {
      PrefixRuns(idOf, steps[..|steps| - 1], k);
      assert steps[..|steps| - 1][..k] == steps[..k];
    }
  }

  /** A shutdown between steps i and j, and no start after it. */
  ghost predicate ShutBetween<B>(steps: seq<Step<B>>, i: nat, j: nat)
    requires i < j <= |steps|
  {
    exists p :: i < p < j && ShutsDown(steps[p]) && forall q :: p < q < j ==> !Starts(steps[q])
  }

  lemma {:induction false} UpUnlessShut<B>(steps: seq<Step<B>>, i: nat, j: nat)
    requires i < j <= |steps| && Up(steps[..i + 1])
    ensures Up(steps[..j]) <==> !ShutBetween(steps, i, j)
    decreases j
  {
    if j > i + 1 {
      UpUnlessShut(steps, i, j - 1);
      assert steps[..j][..j - 1] == steps[..j - 1];
      var last := steps[j - 1];
      if ShutsDown(last) {
        assert i < j - 1 < j && ShutsDown(steps[j - 1]);
      } else if !Starts(last) && ShutBetween(steps, i, j - 1) {
        var p :| i < p < j - 1 && ShutsDown(steps[p]) && forall q :: p < q < j - 1 ==> !Starts(steps[q]);
        assert forall q :: p < q < j ==> !Starts(steps[q]);
      }
    }
  }

  /** From a state in which a server runs, one still runs later unless something has shut it down. */
  lemma RunsUnlessShut<B>(idOf: B -> Option<int>, steps: seq<Step<B>>, i: nat, j: nat)
    requires After(idOf, steps).Some? && i < j < |steps|
    requires After(idOf, steps[..i + 1]).Some? && After(idOf, steps[..i + 1]).value.running
    ensures After(idOf, steps[..j]).Some? && Enabled(After(idOf, steps[..j]).value, steps[j])
    ensures After(idOf, steps[..j]).value.running <==> !ShutBetween(steps, i, j)
  {
    PrefixRuns(idOf, steps, j);
    RunningIsUp(idOf, steps[..i + 1]);
    RunningIsUp(idOf, steps[..j]);
    UpUnlessShut(steps, i, j);
  }

  /** Step i let the caller in, with this ticket: a server ran, or the caller's own has been initialized. */
  ghost predicate LetIn<B>(idOf: B -> Option<int>, steps: seq<Step<B>>, i: nat, ticket: nat)
    requires i < |steps| && After(idOf, steps[..i]).Some? && After(idOf, steps[..i + 1]).Some?
  {
    && ticket == After(idOf, steps[..i]).value.entered
    && After(idOf, steps[..i + 1]).value.entered == ticket + 1
  }

  predicate Writes<B>(step: Step<B>, ticket: nat) {
    step == Begin(ticket) || step == WriteFails(ticket) || step == Notify(ticket)
  }

  predicate DiesWriting<B>(step: Step<B>, ticket: nat) {
    step == Dies(ticket) || step == NotifyDies(ticket)
  }

  /** A caller that was let in at step i and gets to write its request or notification at step j dies exactly
      when something shut the client down in between and nothing started a server after that. */
  lemma DiesIff<B>(idOf: B -> Option<int>, steps: seq<Step<B>>, i: nat, j: nat, ticket: nat)
    requires After(idOf, steps).Some? && i < j < |steps|
    requires After(idOf, steps[..i]).Some? && After(idOf, steps[..i + 1]).Some? && LetIn(idOf, steps, i, ticket)
    requires Writes(steps[j], ticket) || DiesWriting(steps[j], ticket)
    ensures DiesWriting(steps[j], ticket) <==> ShutBetween(steps, i, j)
  {
    LetInRuns(idOf, steps, i, ticket);
    RunsUnlessShut(idOf, steps, i, j);
  }

  lemma LetInRuns<B>(idOf: B -> Option<int>, steps: seq<Step<B>>, i: nat, ticket: nat)
    requires i < |steps| && After(idOf, steps[..i]).Some? && After(idOf, steps[..i + 1]).Some?
    requires LetIn(idOf, steps, i, ticket)
    ensures After(idOf, steps[..i + 1]).value.running
  {
    assert steps[..i + 1][..i] == steps[..i];
    EnteredRuns(idOf, After(idOf, steps[..i]).value, steps[i]);
  }

  lemma EnteredRuns<B>(idOf: B -> Option<int>, s: State<B>, step: Step<B>)
    requires Enabled(s, step) && Next(idOf, s, step).entered == s.entered + 1
    ensures Next(idOf, s, step).running
  {}

  /** A caller that started a server at step i and goes on at step j with the answer to its initialize
      request dies exactly under the same condition. */
  lemma StarterDiesIff<B>(idOf: B -> Option<int>, steps: seq<Step<B>>, i: nat, j: nat, h: nat)
    requires After(idOf, steps).Some? && i < j < |steps| && steps[i] == Start(true)
    requires After(idOf, steps[..i]).Some? && h == |After(idOf, steps[..i]).value.calls|
    requires steps[j] == Initialized(h) || steps[j] == InitializedDies(h)
    ensures steps[j].InitializedDies? <==> ShutBetween(steps, i, j)
  {
    StartRuns(idOf, steps, i);
    RunsUnlessShut(idOf, steps, i, j);
  }

  /** So does the reader of a server started at step i, if it takes the server's output only at step j. */
  lemma ReaderDiesIff<B>(idOf: B -> Option<int>, steps: seq<Step<B>>, i: nat, j: nat, reader: nat)
    requires After(idOf, steps).Some? && i < j < |steps| && steps[i].Start?
    requires After(idOf, steps[..i]).Some? && reader == After(idOf, steps[..i]).value.generation + 1
    requires steps[j] == ReaderBegins(reader) || steps[j] == ReaderDies(reader)
    ensures steps[j].ReaderDies? <==> ShutBetween(steps, i, j)
  {
    StartRuns(idOf, steps, i);
    RunsUnlessShut(idOf, steps, i, j);
  }

  lemma StartRuns<B>(idOf: B -> Option<int>, steps: seq<Step<B>>, i: nat)
    requires After(idOf, steps).Some? && i < |steps| && steps[i].Start?
    ensures After(idOf, steps[..i + 1]).Some? && After(idOf, steps[..i + 1]).value.running
  {
    PrefixRuns(idOf, steps, i + 1);
    assert steps[..i + 1][..i] == steps[..i] && steps[..i + 1][i] == steps[i];
    LastStep(idOf, steps[..i + 1]);
  }

  lemma LastStep<B>(idOf: B -> Option<int>, steps: seq<Step<B>>)
    requires After(idOf, steps).Some? && steps != [] && steps[|steps| - 1].Start?
    ensures After(idOf, steps).value.running
  {}

  lemma SomeKey(m: map<int, nat>) returns (id: int)
    requires m != map[]
    ensures id in m
  {
    assert (forall k :: k !in m) ==> m == map[];
    id :| id in m;
  }

  /** No server is stopped, and no caller that may still wait is told anything. */
  ghost predicate Unharmed<B>(s: State<B>, t: State<B>) {
    && t.running == s.running && |t.calls| == |s.calls|
    && forall h :: 0 <= h < |s.calls| && !s.calls[h].outcome.Died? ==> t.calls[h] == s.calls[h]
  }

  /** A disconnect says nothing about which server's reader noticed it, so whoever reports it, an old reader
      or the current one, it does no harm exactly when no server runs; then, unless calls died, it changes
      nothing at all. */
  lemma DisconnectHarmlessIff<B>(idOf: B -> Option<int>, steps: seq<Step<B>>, reader: nat)
    requires After(idOf, steps).Some? && Enabled(After(idOf, steps).value, Disconnect(reader))
    ensures var s := After(idOf, steps).value; var t := Next(idOf, s, Disconnect(reader));
      && (Unharmed(s, t) <==> !s.running)
      && (NoneDied(s) ==> (t == s <==> !s.running))
  {
    ReachableSound(idOf, steps);
    var s := After(idOf, steps).value;
    if !s.running {
      forall h: nat | h < |s.calls| && !s.calls[h].outcome.Died? ensures !Awaited(s, h) {
        assert Awaited(s, h) ==> DeadEntry(s, s.calls[h].id);
      }
      if NoneDied(s) {
        NoEntryWhenNoneDied(s);
        assert Cleaned(s).calls == s.calls;
      }
    }
  }

  /** Step i shuts the client down on purpose: it was told to stop, or it has been idle with a server. */
  ghost predicate StopsAt<B>(idOf: B -> Option<int>, steps: seq<Step<B>>, i: nat) {
    && i < |steps|
    && (steps[i].Stop? ||
        (steps[i] == IdleTick(true) && After(idOf, steps[..i]).Some? && After(idOf, steps[..i]).value.running))
  }

  lemma {:induction false} StoppingUntilStart<B>(idOf: B -> Option<int>, steps: seq<Step<B>>, i: nat)
    requires After(idOf, steps).Some? && StopsAt(idOf, steps, i)
    requires forall j :: i < j < |steps| ==> !steps[j].Start?
    ensures After(idOf, steps).value.stopping
    decreases |steps|
  {
    var n := |steps| - 1;
    if i < n {
      assert steps[..n][..i] == steps[..i];
      StoppingUntilStart(idOf, steps[..n], i);
      StoppingStays(idOf, After(idOf, steps[..n]).value, steps[n]);
    }
  }

  lemma StoppingStays<B>(idOf: B -> Option<int>, s: State<B>, step: Step<B>)
    requires Enabled(s, step) && s.stopping && !step.Start?
    ensures Next(idOf, s, step).stopping
  {}

  /** After such a stop a disconnect changes nothing at all, the entries of dead calls included, until a server is
      started. */
  lemma QuietAfterStop<B>(idOf: B -> Option<int>, steps: seq<Step<B>>, i: nat, reader: nat)
    requires After(idOf, steps).Some? && StopsAt(idOf, steps, i)
    requires forall j :: i < j < |steps| ==> !steps[j].Start?
    requires Enabled(After(idOf, steps).value, Disconnect(reader))
    ensures Next(idOf, After(idOf, steps).value, Disconnect(reader)) == After(idOf, steps).value
  {
    StoppingUntilStart(idOf, steps, i);
  }

  // ---- Runs that show it ----------------------------------------------------------------------------------

  /** One step of a run, from one state to the next. */
  lemma Then<B>(idOf: B -> Option<int>, steps: seq<Step<B>>, s: State<B>, step: Step<B>, t: State<B>)
    requires After(idOf, steps) == Some(s) && Enabled(s, step) && Next(idOf, s, step) == t
    ensures After(idOf, steps + [step]) == Some(t)
  {
    assert (steps + [step])[..|steps|] == steps;
  }

  lemma FateThen<B>(idOf: B -> Option<int>, steps: seq<Step<B>>, step: Step<B>, id: int)
    ensures IdsTaken(steps + [step]) == IdsTaken(steps) + if TakesId(step) then 1 else 0
    ensures FateOf(idOf, steps + [step], id) == FateStep(idOf, id, IdsTaken(steps), FateOf(idOf, steps, id), step)
  {
    assert (steps + [step])[..|steps|] == steps;
  }

  /** An initialize request: sent, shut, and answered. */
  function InitSent<B>(id: int): Call<B> {
    Call(id, Chan([], 0, 0), Waiting, true)
  }

  function InitShut<B>(id: int): Call<B> {
    Call(id, Chan([], 0, 1), Waiting, true)
  }

  function InitGot<B>(id: int, b: B): Call<B> {
    Call(id, Chan([b], 1, 0), Replied(b), true)
  }

  /** The first server has been started, by a caller that waits for initialize; `others` have been let in. */
  function Up1<B>(others: nat): State<B> {
    State(true, false, 1, others, 1, map[1 := 0], [InitSent(1)])
  }

  lemma FirstStart<B>(idOf: B -> Option<int>)
    ensures Next(idOf, Init(), Start(true)) == Up1(0)
  {
    assert Init<B>().pending[1 := 0] == map[1 := 0];
    assert Init<B>().calls + [InitSent(1)] == [InitSent(1)];
  }

  /** Shutting it down again. */
  lemma FirstStop<B>(idOf: B -> Option<int>, others: nat)
    ensures Next(idOf, Up1(others), Stop) == State(false, true, 1, others, 1, map[], [InitShut(1)])
  {
    assert Close<B>(InitSent(1)) == InitShut(1);
    assert Cleaned(Up1<B>(others).(stopping := true)).calls == [InitShut(1)];
  }

  /** A caller is let in beside the one that waits, and the server is stopped before it comes back. */
  lemma StoppedBetween<B>(idOf: B -> Option<int>)
    ensures After(idOf, [] + [Start(true)] + [Enter] + [Stop]) ==
            Some(State(false, true, 1, 1, 1, map[], [InitShut(1)]))
  {
    FirstStart(idOf);
    FirstStop(idOf, 1);
    Then(idOf, [], Init(), Start(true), Up1(0));
    Then(idOf, [] + [Start(true)], Up1(0), Enter, Up1(1));
    Then(idOf, [] + [Start(true)] + [Enter], Up1(1), Stop, State(false, true, 1, 1, 1, map[], [InitShut(1)]));
  }

  lemma DeadCall<B>(idOf: B -> Option<int>)
    ensures Next(idOf, State(false, true, 1, 1, 1, map[], [InitShut(1)]), Dies(0)) ==
            State(false, true, 1, 1, 2, map[2 := 1], [InitShut(1), Call(2, Chan([], 0, 0), Died, false)])
  {
    var s: State<B> := State(false, true, 1, 1, 1, map[], [InitShut(1)]);
    assert s.pending[2 := 1] == map[2 := 1];
    assert s.calls + [Call(2, Chan([], 0, 0), Died, false)] == [InitShut(1), Call(2, Chan([], 0, 0), Died, false)];
  }

  /** A stop between a caller's two visits: the caller dies, and its call stays registered. */
  lemma StopKillsCaller<B>(idOf: B -> Option<int>)
    ensures After(idOf, [] + [Start(true)] + [Enter] + [Stop] + [Dies(0)]) ==
            Some(State(false, true, 1, 1, 2, map[2 := 1], [InitShut(1), Call(2, Chan([], 0, 0), Died, false)]))
  {
    StoppedBetween(idOf);
    DeadCall(idOf);
    Then(idOf, [] + [Start(true)] + [Enter] + [Stop], State(false, true, 1, 1, 1, map[], [InitShut(1)]), Dies(0),
         State(false, true, 1, 1, 2, map[2 := 1], [InitShut(1), Call(2, Chan([], 0, 0), Died, false)]));
  }

  /** A first server is started and stopped, and a second one started: both callers wait for initialize. */
  function Restart<B>(): seq<Step<B>> {
    [] + [Start(true)] + [ReaderBegins(1)] + [Stop] + [Start(true)]
  }

  function Up2<B>(): State<B> {
    State(true, false, 2, 0, 2, map[2 := 1], [InitShut(1), InitSent(2)])
  }

  lemma SecondStart<B>(idOf: B -> Option<int>)
    ensures Next(idOf, State(false, true, 1, 0, 1, map[], [InitShut(1)]), Start(true)) == Up2()
  {
    var s: State<B> := State(false, true, 1, 0, 1, map[], [InitShut(1)]);
    assert s.pending[2 := 1] == map[2 := 1];
    assert s.calls + [InitSent(2)] == [InitShut(1), InitSent(2)];
  }

  lemma Restarted<B>(idOf: B -> Option<int>)
    ensures After(idOf, Restart()) == Some(Up2())
  {
    FirstStart(idOf);
    FirstStop(idOf, 0);
    SecondStart(idOf);
    var down: State<B> := State(false, true, 1, 0, 1, map[], [InitShut(1)]);
    Then(idOf, [], Init(), Start(true), Up1(0));
    Then(idOf, [] + [Start(true)], Up1(0), ReaderBegins(1), Up1(0));
    Then(idOf, [] + [Start(true)] + [ReaderBegins(1)], Up1(0), Stop, down);
    Then(idOf, [] + [Start(true)] + [ReaderBegins(1)] + [Stop], down, Start(true), Up2());
  }

  lemma RestartedFate<B>(idOf: B -> Option<int>)
    ensures FateOf(idOf, Restart(), 2) == Unanswered
  {
    FateThen(idOf, [], Start(true), 2);
    FateThen(idOf, [] + [Start(true)], ReaderBegins(1), 2);
    FateThen(idOf, [] + [Start(true)] + [ReaderBegins(1)], Stop, 2);
    FateThen(idOf, [] + [Start(true)] + [ReaderBegins(1)] + [Stop], Start(true), 2);
  }

  /** The reader of a stopped server can shut a call sent to its successor. */
  lemma StaleReaderShutsNewCall<B>(idOf: B -> Option<int>)
    ensures var steps: seq<Step<B>> := Restart() + [Disconnect(1)];
      && After(idOf, steps).Some?
      && After(idOf, steps).value.generation == 2
      && FateOf(idOf, steps, 2) == Shut
  {
    Restarted(idOf);
    RestartedFate(idOf);
    Then(idOf, Restart(), Up2(), Disconnect(1), Cleaned(Up2()));
    FateThen(idOf, Restart(), Disconnect(1), 2);
  }

  lemma SecondAnswered<B>(idOf: B -> Option<int>, b: B)
    requires idOf(b) == Some(2)
    ensures var t := Next(idOf, Up2(), Deliver(b)); t.generation == 2 && t.pending == map[] && t.running && !t.stopping
  {}

  /** And it stops an idle successor, although every call to it has been answered. */
  lemma StaleReaderStopsIdleServer<B>(idOf: B -> Option<int>, b: B)
    requires idOf(b) == Some(2)
    ensures var steps: seq<Step<B>> := Restart() + [Deliver(b)];
      && After(idOf, steps).Some? && After(idOf, steps).value.generation == 2
      && After(idOf, steps).value.pending == map[] && After(idOf, steps).value.running
      && After(idOf, steps + [Disconnect(1)]).Some?
      && !After(idOf, steps + [Disconnect(1)]).value.running
  {
    Restarted(idOf);
    SecondAnswered(idOf, b);
    var t := Next(idOf, Up2(), Deliver(b));
    Then(idOf, Restart(), Up2(), Deliver(b), t);
    Then(idOf, Restart() + [Deliver(b)], t, Disconnect(1), Cleaned(t));
  }

  lemma FirstDelivered<B>(idOf: B -> Option<int>, b: B)
    requires idOf(b) == Some(1)
    ensures Next(idOf, Up1(0), Deliver(b)) ==
            State(true, false, 1, 0, 1, map[], [Call(1, Chan([b], 0, 0), Waiting, true)])
  {
    var c: Call<B> := Call(1, Chan([b], 0, 0), Waiting, true);
    assert [] + [b] == [b];
    assert Send(InitSent(1), b) == c && [InitSent(1)][0 := c] == [c];
    assert Up1<B>(0).pending - {1} == map[];
  }

  lemma FirstReceived<B>(idOf: B -> Option<int>, b: B)
    ensures var s: State<B> := State(true, false, 1, 0, 1, map[], [Call(1, Chan([b], 0, 0), Waiting, true)]);
      Enabled(s, Receive(0)) && Next(idOf, s, Receive(0)) == State(true, false, 1, 0, 1, map[], [InitGot(1, b)])
  {
    var c: Call<B> := Call(1, Chan([b], 0, 0), Waiting, true);
    assert Take(c) == InitGot(1, b) && [c][0 := InitGot(1, b)] == [InitGot(1, b)];
  }

  lemma AnsweredStop<B>(idOf: B -> Option<int>, b: B)
    ensures Next(idOf, State(true, false, 1, 0, 1, map[], [InitGot(1, b)]), Stop) ==
            State(false, true, 1, 0, 1, map[], [InitGot(1, b)])
  {
    var s: State<B> := State(true, false, 1, 0, 1, map[], [InitGot(1, b)]);
    assert Cleaned(s.(stopping := true)).calls == [InitGot(1, b)];
  }

  /** Initialize is answered and the starter has the answer. */
  lemma InitializeAnswered<B>(idOf: B -> Option<int>, b: B)
    requires idOf(b) == Some(1)
    ensures After(idOf, [] + [Start(true)] + [Deliver(b)] + [Receive(0)]) ==
            Some(State(true, false, 1, 0, 1, map[], [InitGot(1, b)]))
  {
    FirstStart(idOf);
    FirstDelivered(idOf, b);
    FirstReceived(idOf, b);
    var delivered: State<B> := State(true, false, 1, 0, 1, map[], [Call(1, Chan([b], 0, 0), Waiting, true)]);
    Then(idOf, [], Init(), Start(true), Up1(0));
    Then(idOf, [] + [Start(true)], Up1(0), Deliver(b), delivered);
    Then(idOf, [] + [Start(true)] + [Deliver(b)], delivered, Receive(0),
         State(true, false, 1, 0, 1, map[], [InitGot(1, b)]));
  }

  /** A stop after that: the caller that started the server dies. */
  lemma StopKillsStarter<B>(idOf: B -> Option<int>, b: B)
    requires idOf(b) == Some(1)
    ensures After(idOf, [] + [Start(true)] + [Deliver(b)] + [Receive(0)] + [Stop] + [InitializedDies(0)]).Some?
  {
    InitializeAnswered(idOf, b);
    AnsweredStop(idOf, b);
    var answered: seq<Step<B>> := [] + [Start(true)] + [Deliver(b)] + [Receive(0)];
    var down: State<B> := State(false, true, 1, 0, 1, map[], [InitGot(1, b)]);
    Then(idOf, answered, State(true, false, 1, 0, 1, map[], [InitGot(1, b)]), Stop, down);
    Then(idOf, answered + [Stop], down, InitializedDies(0), NotStarter(down, 0));
  }

  /** A stop before the reader of the server has begun: the reader dies. */
  lemma StopKillsReader<B>(idOf: B -> Option<int>)
    ensures After<B>(idOf, [] + [Start(true)] + [Stop] + [ReaderDies(1)]).Some?
  {
    FirstStart(idOf);
    FirstStop(idOf, 0);
    var down: State<B> := State(false, true, 1, 0, 1, map[], [InitShut(1)]);
    Then(idOf, [], Init(), Start(true), Up1(0));
    Then(idOf, [] + [Start(true)], Up1(0), Stop, down);
    Then(idOf, [] + [Start(true)] + [Stop], down, ReaderDies(1), down);
  }
}
