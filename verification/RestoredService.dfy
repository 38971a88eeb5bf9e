/** What a server, original or restored, makes of the requests that follow. */
module RestoredService {
  import opened Attempts
  import opened Bytes
  import opened ApiLog
  import opened Replay
  import opened ReplayLaws

  function Served(s: State, qs: seq<Request>): State
    requires forall q :: q in qs ==> ArgumentsFit(ClassOf(q.procedure), q.arguments)
    decreases |qs|
  {
    if qs == [] then s else Served(RequestServed(s, qs[0]), qs[1..])
  }

  /** The handle the device gives a new object is not that of a live one: what every device does. */
  predicate NewHandleFree(s: State, q: Request) {
    match ClassOf(q.procedure)
    case Creates(kind, _) => (kind, q.handle) !in s.device.live
    case _ => true
  }

  predicate NewHandlesFree(s: State, qs: seq<Request>)
    requires forall q :: q in qs ==> ArgumentsFit(ClassOf(q.procedure), q.arguments)
    decreases |qs|
  {
    qs == [] || (NewHandleFree(s, qs[0]) && NewHandlesFree(RequestServed(s, qs[0]), qs[1..]))
  }

  /** The handle of a new object is not translated to another one. */
  predicate Unambiguous(rm: Names, q: Request) {
    match ClassOf(q.procedure)
    case Creates(kind, _) => Translate(rm, (kind, q.handle)) == (kind, q.handle)
    case _ => true
  }

  predicate AllUnambiguous(rm: Names, qs: seq<Request>) {
    qs == [] || (Unambiguous(rm, qs[0]) && AllUnambiguous(rm, qs[1..]))
  }

  /* ---------- as long as no handle is ambiguous ---------- */

  lemma HandleIrrelevant(q: Request)
    requires ClassOf(q.procedure).Calls? && q.data == []
    ensures RecordOf(q) == NewRecord(q.procedure, q.arguments, 0, 0, q.stale, [])
  {
    hide ClassOf, ToLE;
  }

  /** One request, served by an original or a restored server. */
  lemma RequestServedSimulates(ideal: Device, q: Request, s: State)
    requires Succeeds(ideal, q) && Simulates(ideal, s.device, s.rm) && NewHandleFree(s, q) && Unambiguous(s.rm, q)
    ensures var t := RequestServed(s, q);
            Simulates(IdealStep(ideal, q), t.device, t.rm) && t.log == s.log + LoggedAs(q) && t.rm == s.rm &&
            (NoneLost(ideal, s.device, s.rm) ==> NoneLost(IdealStep(ideal, q), t.device, t.rm))
    ensures NewToClients(ideal, q)
  {
    hide NoneLost, ClassOf, Simulates, Perform, MakeObject, NewRecord, Translate, Logged;
    var c := ClassOf(q.procedure);
    if !Logged(q) {
      UnloggedIgnored(q);
    }
    match c
    case Creates(kind, n) =>
      NewObjectSimulated(ideal, s.device, s.rm, (kind, q.handle), Object(q.procedure, q.arguments[..n]));
      NotLiveNotNamed(ideal, s.device, s.rm, (kind, q.handle));
    case Calls(kinds, _, destroys) =>
      CallSimulated(ideal, s.device, s.rm, q.procedure, Operands(kinds, q.arguments), Scalars(c, q.arguments),
                    destroys);
      HandleIrrelevant(q);
    case _ =>
  }

  /* ---------- from the first ambiguous handle on ---------- */

  /** The object the clients know as `n` is not what `n` leads to on the device. */
  predicate Missed(ideal: Device, device: Device, rm: Names, n: Name) {
    n in ideal.live && ideal.live[n] < |device.objects| &&
    !(Translate(rm, n) in device.live && device.live[Translate(rm, n)] == ideal.live[n])
  }

  /** `n` is translated, and the device misses it or has not done what the clients asked for. */
  predicate Apart(ideal: Device, device: Device, rm: Names, n: Name) {
    Translate(rm, n) != n && (forall m :: m in device.live ==> device.live[m] < |device.objects|) &&
    |ideal.objects| == |device.objects| && |device.trace| <= |ideal.trace| &&
    (Missed(ideal, device, rm, n) || !(ideal.trace <= device.trace))
  }

  lemma ApartNotSimulated(ideal: Device, device: Device, rm: Names, n: Name)
    requires Apart(ideal, device, rm, n)
    ensures !Simulates(ideal, device, rm)
  {
  }

  lemma AmbiguousSetsApart(ideal: Device, device: Device, rm: Names, n: Name, o: Object)
    requires Simulates(ideal, device, rm) && n !in device.live && Translate(rm, n) != n
    ensures Apart(MakeObject(ideal, n, o), MakeObject(device, n, o), rm, n)
  {
    hide NoneLost, Translate;
  }

  lemma MakingStaysApart(ideal: Device, device: Device, rm: Names, n: Name, x: Name, o: Object)
    requires Apart(ideal, device, rm, n)
    ensures Apart(MakeObject(ideal, x, o), MakeObject(device, x, o), rm, n)
  {
    hide Translate;
  }

  lemma LongerTraces(a: seq<Effect>, b: seq<Effect>, e: Effect, b': seq<Effect>)
    requires |b| <= |a| && b <= b' && |b'| <= |b| + 1
    ensures a + [e] <= b' ==> a == b && b' == a + [e]
  {
    if a + [e] <= b' {
      assert b'[..|a|] == (a + [e])[..|a|] == a;
    }
  }

  lemma CallStaysApart(ideal: Device, device: Device, rm: Names, n: Name, procedure: nat, ns: seq<Name>,
                       scalars: seq<Byte>, destroys: bool)
    requires Apart(ideal, device, rm, n) && CallWorks(ideal, ns, destroys)
    ensures Apart(Perform(ideal, procedure, ns, scalars, destroys).1,
                  Perform(device, procedure, TranslateAll(rm, ns), scalars, destroys).1, rm, n)
  {
    hide Translate;
    var ms := TranslateAll(rm, ns);
    var ideal' := Perform(ideal, procedure, ns, scalars, destroys).1;
    var device' := Perform(device, procedure, ms, scalars, destroys).1;
    var e := Effect(procedure, ResolveAll(ideal, ns), scalars);
    var f := Effect(procedure, ResolveAll(device, ms), scalars);
    assert ideal'.trace == ideal.trace + [e];
    assert device'.trace == device.trace || device'.trace == device.trace + [f];
    LongerTraces(ideal.trace, device.trace, e, device'.trace);
    if Missed(ideal, device, rm, n) && destroys && ns[0] == n && device'.trace != device.trace {
      assert e.targets[0] == Made(ideal.live[n]) != f.targets[0];
      assert device'.trace[|device.trace|] == f && (ideal.trace + [e])[|ideal.trace|] == e;
    }
  }

  lemma RequestStaysApart(ideal: Device, q: Request, s: State, n: Name)
    requires Succeeds(ideal, q) && Apart(ideal, s.device, s.rm, n)
    ensures var t := RequestServed(s, q); Apart(IdealStep(ideal, q), t.device, t.rm, n) && t.rm == s.rm
  {
    hide ClassOf, Apart, Perform, MakeObject, NewRecord, Translate;
    var c := ClassOf(q.procedure);
    match c
    case Creates(kind, size) =>
      MakingStaysApart(ideal, s.device, s.rm, n, (kind, q.handle), Object(q.procedure, q.arguments[..size]));
    case Calls(kinds, _, destroys) =>
      CallStaysApart(ideal, s.device, s.rm, n, q.procedure, Operands(kinds, q.arguments), Scalars(c, q.arguments),
                     destroys);
    case _ =>
  }

  lemma {:induction false} HistoryStaysApart(ideal: Device, qs: seq<Request>, s: State, n: Name)
    requires History(ideal, qs) && Apart(ideal, s.device, s.rm, n)
    requires forall q :: q in qs ==> ArgumentsFit(ClassOf(q.procedure), q.arguments)
    ensures Apart(Ideal(ideal, qs), Served(s, qs).device, s.rm, n)
    decreases |qs|
  {
    hide ClassOf, CallWorks, IdealStep, Apart, RequestServed;
    if qs != [] {
      RequestStaysApart(ideal, qs[0], s, n);
      HistoryStaysApart(IdealStep(ideal, qs[0]), qs[1..], RequestServed(s, qs[0]), n);
    }
  }

  /** The first ambiguous handle is never made good again. */
  lemma AmbiguousNotSimulated(ideal: Device, qs: seq<Request>, s: State)
    requires History(ideal, qs) && Simulates(ideal, s.device, s.rm) && qs != []
    requires forall q :: q in qs ==> ArgumentsFit(ClassOf(q.procedure), q.arguments)
    requires NewHandleFree(s, qs[0]) && !Unambiguous(s.rm, qs[0])
    ensures !Simulates(Ideal(ideal, qs), Served(s, qs).device, s.rm)
  {
    hide ClassOf, CallWorks, Simulates, Apart, Translate, NewRecord, MakeObject;
    var q := qs[0];
    var Creates(kind, size) := ClassOf(q.procedure);
    var n := (kind, q.handle);
    AmbiguousSetsApart(ideal, s.device, s.rm, n, Object(q.procedure, q.arguments[..size]));
    HistoryStaysApart(IdealStep(ideal, q), qs[1..], RequestServed(s, q), n);
    ApartNotSimulated(Ideal(ideal, qs), Served(s, qs).device, s.rm, n);
  }

  /* ---------- whole runs ---------- */

  /**
   A server that simulates the clients' device still does so after any history of requests if and only if
   the handle of no object made on the way is one that the resource managers translate to another. Then no
   client was given a handle that it still held, and no object is lost.
   */
  lemma {:induction false} HistoryServed(ideal: Device, qs: seq<Request>, s: State)
    requires History(ideal, qs) && Simulates(ideal, s.device, s.rm)
    requires forall q :: q in qs ==> ArgumentsFit(ClassOf(q.procedure), q.arguments)
    requires NewHandlesFree(s, qs)
    ensures Simulates(Ideal(ideal, qs), Served(s, qs).device, s.rm) <==> AllUnambiguous(s.rm, qs)
    ensures AllUnambiguous(s.rm, qs) ==> DistinctHandles(ideal, qs)
    ensures AllUnambiguous(s.rm, qs) && NoneLost(ideal, s.device, s.rm) ==>
              NoneLost(Ideal(ideal, qs), Served(s, qs).device, s.rm)
    decreases |qs|
  {
    hide NoneLost, NewToClients, ClassOf, CallWorks, IdealStep, Simulates, Unambiguous, NewHandleFree, RequestServed;
    if qs != [] {
      if Unambiguous(s.rm, qs[0]) {
        RequestServedSimulates(ideal, qs[0], s);
        HistoryServed(IdealStep(ideal, qs[0]), qs[1..], RequestServed(s, qs[0]));
      } else {
        AmbiguousNotSimulated(ideal, qs, s);
      }
    }
  }

  /** A server in bypass mode, with no handle mapped, makes of any history what the clients know. */
  lemma {:induction false} OriginalServed(qs: seq<Request>, s: State)
    requires History(s.device, qs) && s.rm == map[]
    requires forall q :: q in qs ==> ArgumentsFit(ClassOf(q.procedure), q.arguments)
    ensures Served(s, qs) == State(s.log + LogOf(qs), map[], Ideal(s.device, qs))
    ensures AllUnambiguous(s.rm, qs) && (NewHandlesFree(s, qs) <==> DistinctHandles(s.device, qs))
    decreases |qs|
  {
    hide ClassOf, CallWorks, IdealStep, Succeeds, Unambiguous, NewHandleFree, NewToClients, RequestServed, RecordOf,
         LoggedAs;
    if qs == [] {
      assert s.log + LogOf(qs) == s.log;
    } else {
      OriginalServesOne(qs[0], s);
      OriginalServed(qs[1..], RequestServed(s, qs[0]));
      assert s.log + LoggedAs(qs[0]) + LogOf(qs[1..]) == s.log + LogOf(qs);
    }
  }

  lemma OriginalServesOne(q: Request, s: State)
    requires Succeeds(s.device, q) && s.rm == map[]
    ensures RequestServed(s, q) == State(s.log + LoggedAs(q), map[], IdealStep(s.device, q))
    ensures Unambiguous(s.rm, q) && (NewHandleFree(s, q) <==> NewToClients(s.device, q))
  {
    hide ClassOf, Perform, MakeObject, NewRecord, CallWorks, Logged;
    var c := ClassOf(q.procedure);
    if !Logged(q) {
      UnloggedIgnored(q);
    }
    if c.Calls? {
      var ns := Operands(c.operands, q.arguments);
      assert TranslateAll(s.rm, ns) == ns;
      CallsSucceed(s.device, q);
      HandleIrrelevant(q);
    }
  }

  lemma CallsSucceed(d: Device, q: Request)
    requires Succeeds(d, q) && ClassOf(q.procedure).Calls?
    ensures var c := ClassOf(q.procedure);
            Perform(d, q.procedure, Operands(c.operands, q.arguments), Scalars(c, q.arguments), c.destroys).0 == 0
  {
    hide ClassOf;
  }

  /**
   In bypass mode no handle is mapped: none is ambiguous, and as long as no object is lost, the handles that
   are new to the clients are those that are free on the device.
   */
  lemma OriginalUnambiguous(ideal: Device, qs: seq<Request>, s: State)
    requires History(ideal, qs) && Simulates(ideal, s.device, s.rm) && s.rm == map[]
    requires forall q :: q in qs ==> ArgumentsFit(ClassOf(q.procedure), q.arguments)
    requires NoneLost(ideal, s.device, s.rm)
    ensures AllUnambiguous(s.rm, qs) && (NewHandlesFree(s, qs) <==> DistinctHandles(ideal, qs))
  {
    assert ideal == s.device by {
      hide Proper, History;
      assert forall n :: Translate(s.rm, n) == n;
      assert ideal.live == s.device.live;
    }
    OriginalServed(qs, s);
  }

  /**
   From start to finish: a new server serves `before` and is checkpointed; the checkpoint is restored
   on a new server, which goes on and serves `after`. The device is then, but for the names of its
   objects, what one server without a checkpoint would have made of all the requests, if and only if
   none of the handles made since the restore is one that is translated to another. Of the devices nothing
   is demanded but that they give no new object the handle of a live one.
   */
  lemma CheckpointIsTransparent(before: seq<Request>, after: seq<Request>, w: World)
    requires History(NEW_DEVICE, before) && History(Ideal(NEW_DEVICE, before), after)
    requires FreshHandles(NEW_SERVER, LogOf(before), w)
    ensures forall q :: q in before ==> ArgumentsFit(ClassOf(q.procedure), q.arguments)
    ensures forall q :: q in after ==> ArgumentsFit(ClassOf(q.procedure), q.arguments)
    ensures var ideal := Ideal(NEW_DEVICE, before);
            var r := RestoreFrom(NEW_SERVER, DumpedLog(Served(NEW_SERVER, before).log), 0, w);
            r.Ok? && Simulates(ideal, r.value.device, r.value.rm) &&
            (DistinctHandles(NEW_DEVICE, before) ==> NoneLost(ideal, r.value.device, r.value.rm)) &&
            (NewHandlesFree(r.value, after) ==>
               (Simulates(Ideal(ideal, after), Served(r.value, after).device, r.value.rm) <==>
                AllUnambiguous(r.value.rm, after)))
  {
    hide Simulates, NoneLost, RestoreFrom, DumpedLog, LogOf, FreshHandles, History, Ideal, AllUnambiguous,
         NewHandlesFree, DistinctHandles, Served, ClassOf;
    HistoryFits(NEW_DEVICE, before);
    HistoryFits(Ideal(NEW_DEVICE, before), after);
    OriginalServed(before, NEW_SERVER);
    assert [] + LogOf(before) == LogOf(before);
    CheckpointRestored(before, w);
    var t := RestoreFrom(NEW_SERVER, DumpedLog(LogOf(before)), 0, w).value;
    if NewHandlesFree(t, after) {
      HistoryServed(Ideal(NEW_DEVICE, before), after, t);
    }
  }

  /* ---------- a handle used again ---------- */

  /** Making a stream whose handle is `h`, and destroying it. */
  function CreateStream(h: Handle): Request {
    Request(255, [], [], h, [], true)
  }

  function DestroyStream(h: Handle): Request {
    Request(258, ToLE(h, 8), [], 0, [], true)
  }

  lemma StreamHandle(h: Handle)
    requires h < U64
    ensures Operands([Streams], ToLE(h, 8)) == [(Streams, h)]
  {
    hide ToLE, FromLE;
    Pow256Values();
    FitsRoundTrip(h, 8);
    assert ToLE(h, 8)[0..8] == ToLE(h, 8);
  }

  function OneStream(h: Handle): Device {
    Device([Object(255, [])], map[(Streams, h) := 0], [])
  }

  lemma StreamMade(h: Handle)
    requires 2 < h < U64
    ensures History(NEW_DEVICE, [CreateStream(h)]) && Ideal(NEW_DEVICE, [CreateStream(h)]) == OneStream(h)
  {
    assert [CreateStream(h)][1..] == [];
    assert MakeObject(NEW_DEVICE, (Streams, h), Object(255, [])) == OneStream(h);
  }

  lemma StreamDestroyed(h: Handle)
    requires 2 < h < U64
    ensures Succeeds(OneStream(h), DestroyStream(h))
    ensures var d := IdealStep(OneStream(h), DestroyStream(h)); d.live == map[] && History(d, [CreateStream(h)])
  {
    hide ToLE, FromLE;
    StreamHandle(h);
    var d := IdealStep(OneStream(h), DestroyStream(h));
    assert Operands([Streams], ToLE(h, 8))[0] == (Streams, h);
    assert d.live == map[];
    assert [CreateStream(h)][1..] == [];
  }

  /** The client makes a stream; after the restore it destroys it, and gets a stream of the same handle. */
  function UsedAgain(h: Handle): seq<Request> {
    [DestroyStream(h), CreateStream(h)]
  }

  lemma StreamUsedAgain(h: Handle)
    requires 2 < h < U64
    ensures History(OneStream(h), UsedAgain(h))
  {
    StreamDestroyed(h);
    hide OneStream, DestroyStream, CreateStream, Succeeds, IdealStep;
    assert UsedAgain(h)[1..] == [CreateStream(h)];
  }

  lemma StreamReplayed(h: Handle, made: Handle, w: World)
    requires 2 < h < U64 && 2 < made && w.handles(0) == made
    ensures var r := RecordOf(CreateStream(h));
            FreshHandle(NEW_SERVER, r, w) &&
            RecordRestored(NEW_SERVER, r, w) == Ok(State([r], map[(Streams, h) := made], OneStream(made)))
  {
    StreamMade(h);
    RecordOfRequest(NEW_DEVICE, CreateStream(h));
    hide ToLE, Field;
    assert MakeObject(NEW_DEVICE, (Streams, made), Object(255, [])) == OneStream(made);
    assert [] + [RecordOf(CreateStream(h))] == [RecordOf(CreateStream(h))];
  }

  lemma StreamLogged(h: Handle)
    ensures LoggedAs(CreateStream(h)) == [RecordOf(CreateStream(h))]
  {
    hide RecordOf;
  }

  lemma StreamRestored(h: Handle, made: Handle, w: World)
    requires 2 < h < U64 && 2 < made && w.handles(0) == made
    ensures var log := LogOf([CreateStream(h)]);
            FreshHandles(NEW_SERVER, log, w) &&
            RestoreFrom(NEW_SERVER, DumpedLog(log), 0, w) == Ok(State(log, map[(Streams, h) := made], OneStream(made)))
  {
    hide CreateStream, RecordOf, RecordRestored, RestoreFrom, FreshHandle, DumpedLog, ReadLog, Recorded, OneStream;
    StreamMade(h);
    StreamReplayed(h, made, w);
    var log := LogOf([CreateStream(h)]);
    assert [CreateStream(h)][1..] == [] && LogOf([]) == [];
    StreamLogged(h);
    assert log == [RecordOf(CreateStream(h))] && log[1..] == [];
    HistoryRecorded(NEW_DEVICE, [CreateStream(h)]);
    LogReadBack(DumpedLog(log), 0, log);
    RestoringIsReplaying(NEW_SERVER, DumpedLog(log), 0, w);
  }

  /** The restored server destroys the stream it made, and its device may then give out `h`. */
  lemma HandleFreeAgain(h: Handle, made: Handle, log: seq<Record>)
    requires 2 < h < U64 && 2 < made
    ensures ArgumentsFit(ClassOf(258), ToLE(h, 8)) && ArgumentsFit(ClassOf(255), [])
    ensures NewHandlesFree(State(log, map[(Streams, h) := made], OneStream(made)), UsedAgain(h))
  {
    hide ToLE, NewRecord;
    StreamHandle(h);
    var s := State(log, map[(Streams, h) := made], OneStream(made));
    var t := RequestServed(s, DestroyStream(h));
    assert TranslateAll(s.rm, [(Streams, h)])[0] == (Streams, made);
    assert t.device.live == map[];
    assert UsedAgain(h)[1..] == [CreateStream(h)] && [CreateStream(h)][1..] == [];
    assert NewHandleFree(t, CreateStream(h)) && NewHandlesFree(RequestServed(t, CreateStream(h)), []);
    assert NewHandlesFree(t, [CreateStream(h)]);
  }

  /**
   A restored server mistakes a new handle for an old one. A client makes a stream, `h`; the checkpoint is
   restored, where the stream becomes `made`; the client destroys it, and the device gives its next
   stream the handle `h`, which is free. The server goes on to translate `h` to the stream that is gone.
   */
  lemma ReusedHandle(h: Handle, made: Handle, w: World)
    requires 2 < h < U64 && 2 < made && h != made && w.handles(0) == made
    ensures History(NEW_DEVICE, [CreateStream(h)]) && History(Ideal(NEW_DEVICE, [CreateStream(h)]), UsedAgain(h))
    ensures forall q :: q in UsedAgain(h) ==> ArgumentsFit(ClassOf(q.procedure), q.arguments)
    ensures var r := RestoreFrom(NEW_SERVER, DumpedLog(LogOf([CreateStream(h)])), 0, w);
            r.Ok? && NewHandlesFree(r.value, UsedAgain(h)) &&
            !Simulates(Ideal(Ideal(NEW_DEVICE, [CreateStream(h)]), UsedAgain(h)),
                       Served(r.value, UsedAgain(h)).device, r.value.rm)
  {
    StreamMade(h);
    StreamUsedAgain(h);
    HistoryFits(OneStream(h), UsedAgain(h));
    StreamRestored(h, made, w);
    CheckpointRestored([CreateStream(h)], w);
    var t := RestoreFrom(NEW_SERVER, DumpedLog(LogOf([CreateStream(h)])), 0, w).value;
    HandleFreeAgain(h, made, t.log);
    assert !AllUnambiguous(t.rm, UsedAgain(h)) by {
      assert UsedAgain(h)[1..] == [CreateStream(h)];
      assert Translate(t.rm, (Streams, h)) == (Streams, made);
    }
    hide RestoreFrom, DumpedLog, Simulates, ClassOf, NewHandlesFree, AllUnambiguous, Served, Ideal, History;
    HistoryServed(OneStream(h), UsedAgain(h), t);
  }

  lemma HandleHeld(h: Handle)
    requires 2 < h < U64
    ensures History(OneStream(h), [CreateStream(h)]) && !DistinctHandles(OneStream(h), [CreateStream(h)])
  {
    assert [CreateStream(h)][1..] == [];
  }

  lemma FreeElsewhere(h: Handle, made: Handle, log: seq<Record>)
    requires h != made
    ensures ArgumentsFit(ClassOf(255), [])
    ensures NewHandlesFree(State(log, map[(Streams, h) := made], OneStream(made)), [CreateStream(h)])
  {
    hide NewRecord;
    assert [CreateStream(h)][1..] == [];
  }

  /**
   And it mistakes one that the client still holds. The stream `h` becomes `made` in the restore, so that `h`
   is free on the new device, which may give it to the client's next stream. The client then has one handle
   for two streams, and the server goes on to translate it to the first.
   */
  lemma HeldHandle(h: Handle, made: Handle, w: World)
    requires 2 < h < U64 && 2 < made && h != made && w.handles(0) == made
    ensures History(NEW_DEVICE, [CreateStream(h)])
    ensures var ideal := Ideal(NEW_DEVICE, [CreateStream(h)]);
            History(ideal, [CreateStream(h)]) && !DistinctHandles(ideal, [CreateStream(h)])
    ensures ArgumentsFit(ClassOf(255), [])
    ensures var r := RestoreFrom(NEW_SERVER, DumpedLog(LogOf([CreateStream(h)])), 0, w);
            r.Ok? && NewHandlesFree(r.value, [CreateStream(h)]) &&
            !Simulates(Ideal(Ideal(NEW_DEVICE, [CreateStream(h)]), [CreateStream(h)]),
                       Served(r.value, [CreateStream(h)]).device, r.value.rm)
  {
    StreamMade(h);
    HandleHeld(h);
    StreamRestored(h, made, w);
    CheckpointRestored([CreateStream(h)], w);
    var t := RestoreFrom(NEW_SERVER, DumpedLog(LogOf([CreateStream(h)])), 0, w).value;
    FreeElsewhere(h, made, t.log);
    assert !AllUnambiguous(t.rm, [CreateStream(h)]) by {
      assert Translate(t.rm, (Streams, h)) == (Streams, made);
    }
    hide RestoreFrom, DumpedLog, Simulates, ClassOf, NewHandlesFree, AllUnambiguous, Served, Ideal, History;
    HistoryServed(OneStream(h), [CreateStream(h)], t);
  }
}
