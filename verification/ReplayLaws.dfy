/** Why a restored server can stand in for the one that was checkpointed. */
module ReplayLaws {
  import opened Attempts
  import opened Bytes
  import opened ApiLog
  import opened Replay

  /* ---------- what the clients did ---------- */

  function LoggedAs(q: Request): seq<Record> {
    if Logged(q) then [RecordOf(q)] else []
  }

  function LogOf(qs: seq<Request>): seq<Record> {
    if qs == [] then [] else LoggedAs(qs[0]) + LogOf(qs[1..])
  }

  /** A request that is not recorded does not concern the handles. */
  lemma UnloggedIgnored(q: Request)
    requires !Logged(q)
    ensures ClassOf(q.procedure).Ignored?
  {
  }

  /** The device as the clients see it: its objects have the names the clients know. */
  function IdealStep(ideal: Device, q: Request): Device
    requires ArgumentsFit(ClassOf(q.procedure), q.arguments)
  {
    var c := ClassOf(q.procedure);
    match c
    case Creates(kind, n) => MakeObject(ideal, (kind, q.handle), Object(q.procedure, q.arguments[..n]))
    case Calls(kinds, _, destroys) =>
      Perform(ideal, q.procedure, Operands(kinds, q.arguments), Scalars(c, q.arguments), destroys).1
    case _ => ideal
  }

  /** The call succeeds: a new object under some name, or a call on names that are known. */
  predicate Succeeds(ideal: Device, q: Request) {
    var c := ClassOf(q.procedure);
    !c.Unknown? && ArgumentsFit(c, q.arguments) && |q.arguments| < U64 && |q.data| < U64 && q.handle < U64 &&
    match c
    case Creates(kind, n) => q.data == [] && !IsBuiltIn(q.handle)
    case Calls(kinds, _, destroys) => q.data == [] && CallWorks(ideal, Operands(kinds, q.arguments), destroys)
    case _ => true
  }

  predicate History(ideal: Device, qs: seq<Request>)
    decreases |qs|
  {
    qs == [] || (Succeeds(ideal, qs[0]) && History(IdealStep(ideal, qs[0]), qs[1..]))
  }

  function Ideal(ideal: Device, qs: seq<Request>): Device
    requires History(ideal, qs)
    decreases |qs|
  {
    if qs == [] then ideal else Ideal(IdealStep(ideal, qs[0]), qs[1..])
  }

  /** No client is given a handle that it still holds for another object. */
  predicate NewToClients(ideal: Device, q: Request) {
    match ClassOf(q.procedure)
    case Creates(kind, _) => (kind, q.handle) !in ideal.live
    case _ => true
  }

  predicate DistinctHandles(ideal: Device, qs: seq<Request>)
    requires History(ideal, qs)
    decreases |qs|
  {
    qs == [] || (NewToClients(ideal, qs[0]) && DistinctHandles(IdealStep(ideal, qs[0]), qs[1..]))
  }

  /* ---------- the simulation ---------- */

  /** The names of live objects are those of no built-in stream, and each object has one name. */
  predicate Proper(d: Device) {
    (forall n :: n in d.live ==> !IsBuiltIn(n.1) && d.live[n] < |d.objects|) &&
    (forall a, b :: a in d.live && b in d.live && d.live[a] == d.live[b] ==> a == b)
  }

  /** Every name the clients know leads, through the resource managers, to its object on the device. */
  ghost predicate Leads(ideal: Device, device: Device, rm: Names) {
    (forall n :: n in ideal.live ==>
       Translate(rm, n) in device.live && device.live[Translate(rm, n)] == ideal.live[n]) &&
    (forall n :: n in rm ==> !IsBuiltIn(n.1))
  }

  /** The device has no object that the clients have lost the name of. */
  ghost predicate NoneLost(ideal: Device, device: Device, rm: Names) {
    forall m :: m in device.live ==> exists n :: n in ideal.live && Translate(rm, n) == m
  }

  /** The server's device is the clients' device, but for the names of the live objects. */
  ghost predicate Simulates(ideal: Device, device: Device, rm: Names) {
    ideal.objects == device.objects && ideal.trace == device.trace &&
    Proper(ideal) && Proper(device) && Leads(ideal, device, rm)
  }

  lemma NewServerSimulates()
    ensures Simulates(NEW_DEVICE, NEW_DEVICE, map[]) && NoneLost(NEW_DEVICE, NEW_DEVICE, map[])
  {
  }

  /** A name the clients know means the same on the device. */
  lemma NamedAlike(ideal: Device, device: Device, rm: Names, n: Name)
    requires Simulates(ideal, device, rm) && Named(ideal, n)
    ensures Named(device, Translate(rm, n)) && Resolve(device, Translate(rm, n)) == Resolve(ideal, n)
    ensures n in ideal.live ==> Translate(rm, n) in device.live
  {
  }

  lemma CallsAlike(ideal: Device, device: Device, rm: Names, ns: seq<Name>, destroys: bool)
    requires Simulates(ideal, device, rm) && CallWorks(ideal, ns, destroys)
    ensures CallWorks(device, TranslateAll(rm, ns), destroys)
    ensures ResolveAll(device, TranslateAll(rm, ns)) == ResolveAll(ideal, ns)
  {
    hide Simulates, Named, Resolve, Translate;
    forall i | 0 <= i < |ns|
      ensures Named(device, TranslateAll(rm, ns)[i])
      ensures ResolveAll(device, TranslateAll(rm, ns))[i] == ResolveAll(ideal, ns)[i]
      ensures ns[i] in ideal.live ==> TranslateAll(rm, ns)[i] in device.live
    {
      NamedAlike(ideal, device, rm, ns[i]);
    }
  }

  /** Destroying an object under its name. */
  lemma DestroyedAlike(ideal: Device, device: Device, rm: Names, n: Name, e: Effect)
    requires Simulates(ideal, device, rm) && n in ideal.live
    ensures Simulates(Device(ideal.objects, ideal.live - {n}, ideal.trace + [e]),
                      Device(device.objects, device.live - {Translate(rm, n)}, device.trace + [e]), rm)
  {
  }

  lemma NoneLostDestroying(ideal: Device, device: Device, rm: Names, n: Name, e: Effect)
    requires NoneLost(ideal, device, rm)
    ensures NoneLost(Device(ideal.objects, ideal.live - {n}, ideal.trace + [e]),
                     Device(device.objects, device.live - {Translate(rm, n)}, device.trace + [e]), rm)
  {
    hide Translate;
    forall y | y in device.live - {Translate(rm, n)}
      ensures exists x :: x in ideal.live - {n} && Translate(rm, x) == y
    {
      var x :| x in ideal.live && Translate(rm, x) == y;
      assert x in ideal.live - {n};
    }
  }

  /** A call that works for the clients works on the device, and does the same to the same objects. */
  lemma CallSimulated(ideal: Device, device: Device, rm: Names, procedure: nat, ns: seq<Name>,
                      scalars: seq<Byte>, destroys: bool)
    requires Simulates(ideal, device, rm) && CallWorks(ideal, ns, destroys)
    ensures var (err, after) := Perform(device, procedure, TranslateAll(rm, ns), scalars, destroys);
            err == 0 && Simulates(Perform(ideal, procedure, ns, scalars, destroys).1, after, rm) &&
            (NoneLost(ideal, device, rm) ==> NoneLost(Perform(ideal, procedure, ns, scalars, destroys).1, after, rm))
  {
    CallsAlike(ideal, device, rm, ns, destroys);
    if destroys {
      var e := Effect(procedure, ResolveAll(ideal, ns), scalars);
      DestroyedAlike(ideal, device, rm, ns[0], e);
      if NoneLost(ideal, device, rm) {
        NoneLostDestroying(ideal, device, rm, ns[0], e);
      }
    }
  }

  lemma StaysProper(d: Device, n: Name, o: Object)
    requires Proper(d) && !IsBuiltIn(n.1)
    ensures Proper(MakeObject(d, n, o))
  {
  }

  /** A new object under one name for the clients and another on the device, as `rm'` tells. */
  lemma ObjectAdded(ideal: Device, device: Device, rm: Names, rm': Names, n: Name, m: Name, o: Object)
    requires Simulates(ideal, device, rm) && m !in device.live
    requires !IsBuiltIn(n.1) && !IsBuiltIn(m.1) && Translate(rm', n) == m
    requires forall x :: x in rm' ==> !IsBuiltIn(x.1)
    requires forall x :: x != n ==> Translate(rm', x) == Translate(rm, x)
    ensures Simulates(MakeObject(ideal, n, o), MakeObject(device, m, o), rm')
    ensures NoneLost(ideal, device, rm) && n !in ideal.live ==>
              NoneLost(MakeObject(ideal, n, o), MakeObject(device, m, o), rm')
  {
    StaysProper(ideal, n, o);
    StaysProper(device, m, o);
    LeadsToAdded(ideal, device, rm, rm', n, m, o);
    hide Proper, Leads, NoneLost;
    if NoneLost(ideal, device, rm) && n !in ideal.live {
      NoneLostAdding(ideal, device, rm, rm', n, m, o);
    }
  }

  lemma LeadsToAdded(ideal: Device, device: Device, rm: Names, rm': Names, n: Name, m: Name, o: Object)
    requires Leads(ideal, device, rm) && |ideal.objects| == |device.objects| && m !in device.live
    requires Translate(rm', n) == m && forall x :: x != n ==> Translate(rm', x) == Translate(rm, x)
    requires forall x :: x in rm' ==> !IsBuiltIn(x.1)
    ensures Leads(MakeObject(ideal, n, o), MakeObject(device, m, o), rm')
  {
    hide Translate;
    var ideal', device' := MakeObject(ideal, n, o), MakeObject(device, m, o);
    forall x | x in ideal'.live
      ensures Translate(rm', x) in device'.live && device'.live[Translate(rm', x)] == ideal'.live[x]
    {
      if x != n {
        assert Translate(rm, x) in device.live;
      }
    }
  }

  lemma NoneLostAdding(ideal: Device, device: Device, rm: Names, rm': Names, n: Name, m: Name, o: Object)
    requires NoneLost(ideal, device, rm) && n !in ideal.live
    requires Translate(rm', n) == m && forall x :: x != n ==> Translate(rm', x) == Translate(rm, x)
    ensures NoneLost(MakeObject(ideal, n, o), MakeObject(device, m, o), rm')
  {
    hide Translate;
    var ideal', device' := MakeObject(ideal, n, o), MakeObject(device, m, o);
    forall y | y in device'.live
      ensures exists x :: x in ideal'.live && Translate(rm', x) == y
    {
      if y == m {
        assert n in ideal'.live && Translate(rm', n) == y;
      } else {
        var x :| x in ideal.live && Translate(rm, x) == y;
        assert x in ideal'.live && Translate(rm', x) == y;
      }
    }
  }

  /** A new object whose client name is entered in the resource manager, as on restoring. */
  lemma RestoredObjectSimulated(ideal: Device, device: Device, rm: Names, kind: Kind, name: Handle, made: Handle,
                                o: Object)
    requires Simulates(ideal, device, rm)
    requires !IsBuiltIn(name) && (kind, made) !in device.live && !IsBuiltIn(made)
    ensures Simulates(MakeObject(ideal, (kind, name), o), MakeObject(device, (kind, made), o), rm[(kind, name) := made])
    ensures NoneLost(ideal, device, rm) && (kind, name) !in ideal.live ==>
              NoneLost(MakeObject(ideal, (kind, name), o), MakeObject(device, (kind, made), o),
                       rm[(kind, name) := made])
  {
    hide Proper, NoneLost, MakeObject;
    ObjectAdded(ideal, device, rm, rm[(kind, name) := made], (kind, name), (kind, made), o);
  }

  /** What the device has no object for, the clients have no name for. */
  lemma NotLiveNotNamed(ideal: Device, device: Device, rm: Names, n: Name)
    requires Simulates(ideal, device, rm) && n !in device.live && Translate(rm, n) == n
    ensures n !in ideal.live
  {
  }

  /**
   A new object that the client gets to know by the device's own handle: the server still simulates
   the clients' device exactly when that handle is not mapped to another one.
   */
  lemma NewObjectSimulated(ideal: Device, device: Device, rm: Names, n: Name, o: Object)
    requires Simulates(ideal, device, rm) && n !in device.live && !IsBuiltIn(n.1)
    ensures Simulates(MakeObject(ideal, n, o), MakeObject(device, n, o), rm) <==> Translate(rm, n) == n
    ensures Translate(rm, n) == n && NoneLost(ideal, device, rm) ==>
              NoneLost(MakeObject(ideal, n, o), MakeObject(device, n, o), rm)
  {
    if Translate(rm, n) == n {
      NotLiveNotNamed(ideal, device, rm, n);
      hide Proper, NoneLost, MakeObject, Translate;
      ObjectAdded(ideal, device, rm, rm, n, n, o);
    } else {
      NewObjectMissed(ideal, device, rm, n, o);
    }
  }

  lemma NewObjectMissed(ideal: Device, device: Device, rm: Names, n: Name, o: Object)
    requires Simulates(ideal, device, rm) && n !in device.live && Translate(rm, n) != n
    ensures !Leads(MakeObject(ideal, n, o), MakeObject(device, n, o), rm)
  {
    hide NoneLost;
    var ideal', device', m := MakeObject(ideal, n, o), MakeObject(device, n, o), Translate(rm, n);
    assert n in ideal'.live && ideal'.live[n] == |device.objects|;
    assert m in device'.live ==> m in device.live && device'.live[m] < |device.objects|;
  }

  /* ---------- restoring a log ---------- */

  lemma KnownProcedures(procedure: nat)
    requires !ClassOf(procedure).Unknown?
    ensures procedure < U32
  {
  }

  lemma RecordOfRequest(ideal: Device, q: Request)
    requires Succeeds(ideal, q)
    ensures var r := RecordOf(q);
            Recorded(r) && Normal(r) == r && r.function_ == q.procedure && r.arguments == q.arguments &&
            |r.result| == RESULT_SIZE &&
            (ClassOf(q.procedure).Creates? ==> Field(r.result, 8, 8) == q.handle)
  {
    KnownProcedures(q.procedure);
    hide ClassOf, CallWorks, ToLE, FromLE;
    if ClassOf(q.procedure).Creates? {
      var r := RecordOf(q).result;
      assert r[8..16] == ToLE(q.handle, 8);
      Pow256Values();
      FitsRoundTrip(q.handle, 8);
    }
  }

  /** The device gives the restored object a handle that no live object has. */
  predicate FreshHandle(s: State, r: Record, w: World) {
    match ClassOf(r.function_)
    case Creates(kind, _) =>
      var made := w.handles(|s.device.objects|); (kind, made) !in s.device.live && !IsBuiltIn(made)
    case _ => true
  }

  predicate FreshHandles(s: State, rs: seq<Record>, w: World)
    decreases |rs|
  {
    rs == [] ||
    (FreshHandle(s, rs[0], w) &&
     (RecordRestored(s, rs[0], w).Ok? ==> FreshHandles(RecordRestored(s, rs[0], w).value, rs[1..], w)))
  }

  /** What one record becomes in the restored log: a replayed handler records its call once more. */
  function Rerecorded(r: Record, at: nat, w: World): (rs: seq<Record>)
    ensures 1 <= |rs| <= 2 && rs[0] == r
  {
    if ClassOf(r.function_).Calls? then [r, NewRecord(r.function_, r.arguments, 0, 0, w.stale(at + 1), [])] else [r]
  }

  /** The log after restoring `rs` onto a log of `at` records. */
  function RestoredLog(rs: seq<Record>, at: nat, w: World): seq<Record> {
    if rs == [] then [] else Rerecorded(rs[0], at, w) + RestoredLog(rs[1..], at + |Rerecorded(rs[0], at, w)|, w)
  }

  lemma CreateReplayed(ideal: Device, q: Request, t: State, w: World)
    requires Succeeds(ideal, q) && Simulates(ideal, t.device, t.rm) && FreshHandle(t, RecordOf(q), w)
    requires ClassOf(q.procedure).Creates?
    ensures var r := RecordRestored(t, RecordOf(q), w);
            r.Ok? && Simulates(IdealStep(ideal, q), r.value.device, r.value.rm) &&
            r.value.log == t.log + [RecordOf(q)] &&
            (NewToClients(ideal, q) && NoneLost(ideal, t.device, t.rm) ==>
               NoneLost(IdealStep(ideal, q), r.value.device, r.value.rm))
  {
    hide NoneLost, ClassOf, Simulates, MakeObject, RecordOf, Recorded, Normal;
    RecordOfRequest(ideal, q);
    var Creates(kind, n) := ClassOf(q.procedure);
    RestoredObjectSimulated(ideal, t.device, t.rm, kind, q.handle, w.handles(|t.device.objects|),
                            Object(q.procedure, q.arguments[..n]));
  }

  lemma CallReplayed(ideal: Device, q: Request, t: State, w: World)
    requires Succeeds(ideal, q) && Simulates(ideal, t.device, t.rm) && ClassOf(q.procedure).Calls?
    ensures var r := RecordRestored(t, RecordOf(q), w);
            r.Ok? && Simulates(IdealStep(ideal, q), r.value.device, r.value.rm) &&
            r.value.log == t.log + Rerecorded(RecordOf(q), |t.log|, w) && r.value.rm == t.rm &&
            (NoneLost(ideal, t.device, t.rm) ==> NoneLost(IdealStep(ideal, q), r.value.device, r.value.rm))
  {
    hide NoneLost, ClassOf, Simulates, Perform, RecordOf, Recorded, Normal, NewRecord;
    RecordOfRequest(ideal, q);
    var c := ClassOf(q.procedure);
    CallSimulated(ideal, t.device, t.rm, q.procedure, Operands(c.operands, q.arguments), Scalars(c, q.arguments),
                  c.destroys);
  }

  lemma RequestReplayed(ideal: Device, q: Request, t: State, w: World)
    requires Succeeds(ideal, q) && Simulates(ideal, t.device, t.rm) && FreshHandle(t, RecordOf(q), w)
    ensures var r := RecordRestored(t, RecordOf(q), w);
            r.Ok? && Simulates(IdealStep(ideal, q), r.value.device, r.value.rm) &&
            r.value.log == t.log + Rerecorded(RecordOf(q), |t.log|, w) &&
            (NewToClients(ideal, q) && NoneLost(ideal, t.device, t.rm) ==>
               NoneLost(IdealStep(ideal, q), r.value.device, r.value.rm))
  {
    hide NoneLost, ClassOf, Simulates, Perform, MakeObject, RecordOf, Recorded, Normal, CallWorks;
    RecordOfRequest(ideal, q);
    match ClassOf(q.procedure)
    case Creates(_, _) => CreateReplayed(ideal, q, t, w);
    case Calls(_, _, _) => CallReplayed(ideal, q, t, w);
    case _ =>
  }

  lemma UnloggedStep(ideal: Device, q: Request)
    requires !Logged(q) && ArgumentsFit(ClassOf(q.procedure), q.arguments)
    ensures IdealStep(ideal, q) == ideal
  {
    UnloggedIgnored(q);
    hide ClassOf;
  }

  /** Replaying the log of any history of successful calls. */
  lemma {:induction false} LogReplayed(ideal: Device, qs: seq<Request>, t: State, w: World)
    requires History(ideal, qs) && Simulates(ideal, t.device, t.rm) && FreshHandles(t, LogOf(qs), w)
    ensures var r := ReplayLog(t, LogOf(qs), w);
            r.Ok? && Simulates(Ideal(ideal, qs), r.value.device, r.value.rm) &&
            r.value.log == t.log + RestoredLog(LogOf(qs), |t.log|, w) &&
            (DistinctHandles(ideal, qs) && NoneLost(ideal, t.device, t.rm) ==>
               NoneLost(Ideal(ideal, qs), r.value.device, r.value.rm))
    decreases |qs|
  {
    hide NoneLost, NewToClients, Simulates, RecordRestored, ClassOf, CallWorks, FreshHandle, RecordOf, IdealStep,
         Rerecorded;
    if qs != [] {
      var rs := LogOf(qs);
      if Logged(qs[0]) {
        assert rs[0] == RecordOf(qs[0]) && rs[1..] == LogOf(qs[1..]);
        RequestReplayed(ideal, qs[0], t, w);
        LogReplayed(IdealStep(ideal, qs[0]), qs[1..], RecordRestored(t, rs[0], w).value, w);
      } else {
        assert rs == LogOf(qs[1..]);
        UnloggedStep(ideal, qs[0]);
        LogReplayed(ideal, qs[1..], t, w);
      }
    }
  }

  /** The restoring loop is reading the whole log and then replaying it. */
  lemma {:induction false} RestoringIsReplaying(s: State, content: seq<Byte>, pos: nat, w: World)
    ensures var (rs, ok) := ReadLog(content, pos);
            var r := ReplayLog(s, rs, w);
            RestoreFrom(s, content, pos, w) == if r.Ok? && !ok then Failed else r
    decreases |content| - pos
  {
    hide RecordRestored, ReadRecord;
    match ReadRecord(content, pos)
    case AtEnd =>
    case Broken =>
    case Complete(r, next) =>
      var t := RecordRestored(s, r, w);
      var (rest, ok) := ReadLog(content, next);
      assert ([r] + rest)[0] == r && ([r] + rest)[1..] == rest;
      if t.Ok? {
        RestoringIsReplaying(t.value, content, next, w);
      }
  }

  lemma {:induction false} HistoryRecorded(ideal: Device, qs: seq<Request>)
    requires History(ideal, qs)
    ensures RecordedLog(LogOf(qs)) && NormalLog(LogOf(qs)) == LogOf(qs)
    decreases |qs|
  {
    hide ClassOf, CallWorks, RecordOf, Recorded, Normal, IdealStep;
    if qs != [] {
      RecordOfRequest(ideal, qs[0]);
      HistoryRecorded(IdealStep(ideal, qs[0]), qs[1..]);
      if Logged(qs[0]) {
        NormalLogCons(LogOf(qs), |LogOf(qs)| - 1);
        assert LogOf(qs)[1..] == LogOf(qs[1..]);
      } else {
        assert LogOf(qs) == LogOf(qs[1..]);
      }
    }
  }

  /**
   Checkpoint and restore: whatever calls the clients made, as long as they succeeded, restoring the
   dumped log on a new server succeeds, and the server then simulates the device as the clients know
   it; its log is the dumped one with every replayed call recorded a second time. No object is lost, if
   the clients have not lost one by getting its handle for another.
   */
  lemma CheckpointRestored(qs: seq<Request>, w: World)
    requires History(NEW_DEVICE, qs) && FreshHandles(NEW_SERVER, LogOf(qs), w)
    ensures var r := RestoreFrom(NEW_SERVER, DumpedLog(LogOf(qs)), 0, w);
            r.Ok? && Simulates(Ideal(NEW_DEVICE, qs), r.value.device, r.value.rm) &&
            r.value.log == RestoredLog(LogOf(qs), 0, w) &&
            (DistinctHandles(NEW_DEVICE, qs) ==> NoneLost(Ideal(NEW_DEVICE, qs), r.value.device, r.value.rm))
  {
    hide NoneLost, DistinctHandles, Simulates, RestoreFrom, DumpedLog, LogOf, ReplayLog, ReadLog, RestoredLog,
         FreshHandles, History, Ideal;
    var content := DumpedLog(LogOf(qs));
    HistoryRecorded(NEW_DEVICE, qs);
    LogReadBack(content, 0, LogOf(qs));
    RestoringIsReplaying(NEW_SERVER, content, 0, w);
    NewServerSimulates();
    LogReplayed(NEW_DEVICE, qs, NEW_SERVER, w);
    assert [] + RestoredLog(LogOf(qs), 0, w) == RestoredLog(LogOf(qs), 0, w);
  }

  /** How many requests the first n records of a history's log are of. */
  function RequestsOf(qs: seq<Request>, n: nat): (k: nat)
    ensures k <= |qs|
  {
    if n == 0 || qs == [] then 0 else 1 + RequestsOf(qs[1..], if Logged(qs[0]) then n - 1 else n)
  }

  /** These requests are a history, and their log is the first n records. */
  lemma {:induction false} HistoryPrefix(ideal: Device, qs: seq<Request>, n: nat)
    requires History(ideal, qs) && n <= |LogOf(qs)|
    ensures History(ideal, qs[..RequestsOf(qs, n)]) && LogOf(qs[..RequestsOf(qs, n)]) == LogOf(qs)[..n]
    decreases |qs|
  {
    hide ClassOf, CallWorks, IdealStep, RecordOf, Logged;
    if n > 0 {
      var rest := if Logged(qs[0]) then n - 1 else n;
      var k := RequestsOf(qs[1..], rest);
      HistoryPrefix(IdealStep(ideal, qs[0]), qs[1..], rest);
      assert qs[..k + 1][0] == qs[0] && qs[..k + 1][1..] == qs[1..][..k];
      assert LogOf(qs)[..n] == LoggedAs(qs[0]) + LogOf(qs[1..])[..rest];
    }
  }

  lemma {:induction false} FreshPrefix(s: State, rs: seq<Record>, n: nat, w: World)
    requires FreshHandles(s, rs, w) && n <= |rs|
    ensures FreshHandles(s, rs[..n], w)
    decreases |rs|
  {
    hide FreshHandle, RecordRestored;
    if n > 0 {
      assert rs[..n][0] == rs[0] && rs[..n][1..] == rs[1..][..n - 1];
      if RecordRestored(s, rs[0], w).Ok? {
        FreshPrefix(RecordRestored(s, rs[0], w).value, rs[1..], n - 1, w);
      }
    }
  }

  /**
   A dump cut anywhere: restoring it brings back the requests whose records are whole, and it succeeds
   exactly if the cut lies at the start of a record or inside its `function` field. No request is ever
   restored that was not made, and none out of order.
   */
  lemma CutCheckpointRestored(qs: seq<Request>, size: nat, w: World)
    requires History(NEW_DEVICE, qs) && FreshHandles(NEW_SERVER, LogOf(qs), w) && size <= |DumpedLog(LogOf(qs))|
    ensures var n := WholeRecords(LogOf(qs), size);
            var made := qs[..RequestsOf(qs, n)];
            var r := RestoreFrom(NEW_SERVER, DumpedLog(LogOf(qs))[..size], 0, w);
            History(NEW_DEVICE, made) && LogOf(made) == LogOf(qs)[..n] &&
            if size < |DumpedLog(LogOf(made))| + FUNCTION_SIZE
            then r.Ok? && Simulates(Ideal(NEW_DEVICE, made), r.value.device, r.value.rm) &&
                 r.value.log == RestoredLog(LogOf(made), 0, w) &&
                 (DistinctHandles(NEW_DEVICE, made) ==> NoneLost(Ideal(NEW_DEVICE, made), r.value.device, r.value.rm))
            else r == Failed
  {
    hide NoneLost, DistinctHandles, Simulates, RestoreFrom, DumpedLog, LogOf, ReplayLog, ReadLog, RestoredLog,
         FreshHandles, History, Ideal, WholeRecords, RequestsOf;
    var content, n := DumpedLog(LogOf(qs))[..size], WholeRecords(LogOf(qs), size);
    var made := qs[..RequestsOf(qs, n)];
    assert content[0..] == content;
    HistoryRecorded(NEW_DEVICE, qs);
    CutLogReadBack(content, 0, LogOf(qs));
    RestoringIsReplaying(NEW_SERVER, content, 0, w);
    HistoryPrefix(NEW_DEVICE, qs, n);
    FreshPrefix(NEW_SERVER, LogOf(qs), n, w);
    NewServerSimulates();
    LogReplayed(NEW_DEVICE, made, NEW_SERVER, w);
    assert [] + RestoredLog(LogOf(made), 0, w) == RestoredLog(LogOf(made), 0, w);
  }

  lemma {:induction false} HistoryFits(ideal: Device, qs: seq<Request>)
    requires History(ideal, qs)
    ensures forall q :: q in qs ==> ArgumentsFit(ClassOf(q.procedure), q.arguments)
    decreases |qs|
  {
    hide ClassOf, CallWorks, IdealStep;
    if qs != [] {
      HistoryFits(IdealStep(ideal, qs[0]), qs[1..]);
      assert qs == [qs[0]] + qs[1..];
    }
  }
}
