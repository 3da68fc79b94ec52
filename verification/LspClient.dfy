/** The language-server manager as the object the source mutates under its mutex
    (internal/lsp/client.go). One method per stretch of code that holds the mutex; each is proved to take
    exactly one step of the protocol. Sending on a full or closed channel and closing a closed one, which
    would block or panic in the source, are preconditions of SendOn and CloseOn, and every call of these
    meets them; a caller or reader that panics because the server's input or output is gone is an outcome. */
module LspClient {
  import opened LspProtocol
  import opened Wrappers

  /** What becomes of a request or notification when its caller holds the mutex. */
  datatype Sending = Sent | Failed | Panicked

  /** What EnsureStarted comes to before it lets go of the mutex: the caller is let in with a ticket, waits for
      the answer to initialize, or is told of an error. */
  datatype Entry = Admitted(ticket: nat) | Starting(call: nat) | Refused

  /** What a waiting caller is told: the body it goes on to decode, an error, or just that there was none. */
  datatype Told<B> = Body(body: B) | DecodeError | NoError

  class Manager<B> {
    const idOf: B -> Option<int>
    var running: bool
    var isStopping: bool
    var generation: nat
    var entered: nat
    var idCounter: int
    var pending: map<int, nat>
    var calls: seq<Call<B>>

    ghost predicate Valid()
      reads this
    {
      idCounter >= 0 && Sound(idOf, Abs())
    }

    ghost function Abs(): State<B>
      reads this
    {
      State(running, isStopping, generation, entered, if idCounter >= 0 then idCounter else 0, pending, calls)
    }

    /** Lines 56-65. */
    constructor (idOf: B -> Option<int>)
      ensures Valid() && Abs() == Init() && this.idOf == idOf
    {
      this.idOf := idOf;
      running, isStopping, generation, idCounter := false, false, 0, 0;
      entered := 0;
      pending, calls := map[], [];
    }

    /** A send on the call's channel: it must be open and its one place free. */
    method SendOn(h: nat, body: B)
      requires h < |calls| && calls[h].chan.Open() && !calls[h].chan.Full()
      modifies this`calls
      ensures calls == old(calls)[h := Send(old(calls)[h], body)]
    {
      calls := calls[h := Send(calls[h], body)];
    }

    method CloseOn(h: nat)
      requires h < |calls| && calls[h].chan.Open()
      modifies this`calls
      ensures calls == old(calls)[h := Close(old(calls)[h])]
    {
      calls := calls[h := Close(calls[h])];
    }

    /** Lines 69-111 up to the wait for initialize, all under one hold of the mutex; `starts` says whether a
        server could be started, `writes` whether initialize could be written to it. */
    method EnsureStarted(starts: bool, writes: bool) returns (r: Entry)
      requires Valid()
      modifies this
      ensures Valid() && Enabled(old(Abs()), EntryStep(old(running), starts, writes))
      ensures Abs() == Next(idOf, old(Abs()), EntryStep(old(running), starts, writes))
      ensures r == if old(running) then Admitted(old(entered))
                   else if starts && writes then Starting(|old(calls)|) else Refused
    {
      StepSound(idOf, Abs(), EntryStep(running, starts, writes));
      if running {
        r := Admitted(entered);
        entered := entered + 1;
        return;
      }
      if !starts {
        return Refused;
      }
      LaunchedSound(idOf, Abs());
      ghost var launched := Launched(Abs());
      running := true;
      isStopping := false;
      generation := generation + 1;
      assert Abs() == launched;
      r := Starting(|calls|);
      var sent := CallLocked(true, writes, true);
      if sent == Failed {
        r := Refused;
      }
    }

    static function EntryStep(running: bool, starts: bool, writes: bool): Step<B> {
      if running then Enter else if starts then Start(writes) else TurnedAway
    }

    /** Lines 111 and 140-146: initialize is answered, and the starter sends the notification and is let in,
        or panics when the server's input is gone. */
    method FinishStart(h: nat) returns (ticket: Option<nat>)
      requires Valid() && Initializing(Abs(), h)
      modifies this
      ensures Valid()
      ensures Abs() == Next(idOf, old(Abs()), if old(running) then Initialized(h) else InitializedDies(h))
      ensures ticket == if old(running) then Some(old(entered)) else None
    {
      StepSound(idOf, Abs(), if running then Initialized(h) else InitializedDies(h));
      calls := calls[h := calls[h].(starter := false)];
      if !running {
        return None;
      }
      ticket := Some(entered);
      entered := entered + 1;
    }

    /** Lines 159-161, the second visit for a request. */
    method Request(ghost ticket: nat, encodes: bool, writes: bool) returns (r: Sending)
      requires Valid() && ticket < entered
      modifies this
      ensures Valid()
      ensures r == if encodes && !old(running) then Panicked else if encodes && writes then Sent else Failed
      ensures Abs() == Next(idOf, old(Abs()), RequestStep(ticket, encodes, old(running), writes))
    {
      r := CallLocked(encodes, writes, false);
    }

    /** Lines 164-188: the call is registered before the request is written, and taken out again when it
        cannot be written; when the server's input is gone the caller panics with its call registered. */
    method CallLocked(encodes: bool, writes: bool, starter: bool) returns (r: Sending)
      requires Valid()
      modifies this`idCounter, this`pending, this`calls
      ensures Valid()
      ensures r == if encodes && !running then Panicked else if encodes && writes then Sent else Failed
      ensures Abs() == Requested(old(Abs()), encodes, writes, starter)
    {
      ghost var next := Requested(Abs(), encodes, writes, starter);
      RequestedSound(idOf, Abs(), encodes, writes, starter);
      FreshId(idOf, Abs(), idCounter + 1);
      idCounter := idCounter + 1;
      var id := idCounter;
      if !encodes {
        return Failed;
      }
      ghost var before := pending;
      pending := pending[id := |calls|];
      if !running {
        calls := calls + [Call(id, Chan([], 0, 0), Died, starter)];
        r := Panicked;
      } else if !writes {
        pending := pending - {id};
        assert pending == before;
        r := Failed;
      } else {
        calls := calls + [Call(id, Chan([], 0, 0), Waiting, starter)];
        r := Sent;
      }
      assert Abs() == next;
    }

    static function RequestStep(ticket: nat, encodes: bool, running: bool, writes: bool): Step<B> {
      if !encodes then MarshalFails(ticket)
      else if !running then Dies(ticket)
      else if writes then Begin(ticket) else WriteFails(ticket)
    }

    /** Lines 224-237, the second visit for a notification: nothing is registered. */
    method NotifyLocked(ghost ticket: nat, encodes: bool, writes: bool) returns (r: Sending)
      requires Valid() && ticket < entered
      ensures Valid() && (encodes ==> Enabled(Abs(), if running then Notify(ticket) else NotifyDies(ticket)))
      ensures r == if encodes && !running then Panicked else if encodes && writes then Sent else Failed
    {
      if !encodes {
        return Failed;
      }
      r := if !running then Panicked else if writes then Sent else Failed;
    }

    /** Line 260, without the mutex: the reader takes the server's output as it finds it. */
    method ReaderStarts(ghost reader: nat) returns (found: bool)
      requires Valid() && 0 < reader <= generation
      ensures Enabled(Abs(), if found then ReaderBegins(reader) else ReaderDies(reader))
    {
      found := running;
    }

    /** Lines 191-208: the waiting caller's channel is ready. A caller that wants no result is told the same
        whether its request was answered or its channel was closed. */
    method Receive(h: nat, wantsResult: bool) returns (told: Told<B>)
      requires Valid() && Enabled(Abs(), Step.Receive(h))
      modifies this
      ensures Valid() && Abs() == Next(idOf, old(Abs()), Step.Receive(h))
      ensures calls[h].outcome.Replied? || calls[h].outcome.Disconnected?
      ensures calls[h].outcome.Replied? ==> idOf(calls[h].outcome.body) == Some(calls[h].id)
      ensures told == if !wantsResult then NoError
                      else if calls[h].outcome.Replied? then Body(calls[h].outcome.body) else DecodeError
    {
      StepSound(idOf, Abs(), Step.Receive(h));
      calls := calls[h := Take(calls[h])];
      assert OneAnswer(idOf, calls[h]);
      if !wantsResult {
        return NoError;
      }
      match calls[h].outcome
      case Replied(body) => told := Body(body);
      case _ => told := DecodeError;
    }

    /** Lines 209-211: the caller gives up; its entry stays registered. */
    method GiveUp(h: nat)
      requires Valid() && Enabled(Abs(), Cancel(h))
      modifies this
      ensures Valid() && Abs() == Next(idOf, old(Abs()), Cancel(h))
    {
      StepSound(idOf, Abs(), Cancel(h));
      calls := calls[h := calls[h].(outcome := Cancelled)];
    }

    /** Lines 286-302: one message from a reader. */
    method Dispatch(body: B)
      requires Valid()
      modifies this
      ensures Valid() && Abs() == Next(idOf, old(Abs()), Deliver(body))
    {
      StepSound(idOf, Abs(), Deliver(body));
      var id := idOf(body);
      if id.Some? && id.value in pending {
        PendingAt(Abs(), id.value);
        var h := pending[id.value];
        SendOn(h, body);
        pending := pending - {id.value};
      }
    }

    /** Lines 316-324. */
    method HandleDisconnect(reader: nat)
      requires Valid() && Enabled(Abs(), Disconnect(reader))
      modifies this
      ensures Valid() && Abs() == Next(idOf, old(Abs()), Disconnect(reader))
    {
      StepSound(idOf, Abs(), Disconnect(reader));
      if isStopping {
        return;
      }
      CleanupLocked();
    }

    /** Lines 326-337: the entries in any order. */
    method CleanupLocked()
      requires idCounter >= 0 && PendingOpen(Abs())
      modifies this`running, this`pending, this`calls
      ensures Abs() == Cleaned(old(Abs()))
    {
      ghost var s := Abs();
      running := false;
      while pending != map[]
        invariant forall id :: id in pending ==> id in s.pending && pending[id] == s.pending[id]
        invariant !running && |calls| == |s.calls|
        invariant forall h: nat :: h < |calls| ==>
          calls[h] == if Awaited(s, h) && s.calls[h].id !in pending then Close(s.calls[h]) else s.calls[h]
        decreases |pending|
      {
        ghost var some := SomeKey(pending);
        var id :| id in pending;
        PendingAt(s, id);
        CloseOn(pending[id]);
        assert (pending - {id}).Keys == pending.Keys - {id};
        pending := pending - {id};
      }
      assert calls == Cleaned(s).calls;
    }

    /** Lines 339-357, one tick of the idle monitor. */
    method MonitorTick(idle: bool) returns (done: bool)
      requires Valid()
      modifies this
      ensures Valid() && Abs() == Next(idOf, old(Abs()), IdleTick(idle))
      ensures done <==> !running
    {
      StepSound(idOf, Abs(), IdleTick(idle));
      if !running {
        return true;
      }
      if idle {
        isStopping := true;
        CleanupLocked();
        return true;
      }
      return false;
    }

    /** Lines 360-366. */
    method Shutdown()
      requires Valid()
      modifies this
      ensures Valid() && Abs() == Next(idOf, old(Abs()), Stop)
    {
      StepSound(idOf, Abs(), Stop);
      isStopping := true;
      CleanupLocked();
    }
  }
}
