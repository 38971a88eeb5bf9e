/**
 What each of the server's procedures does, one after the other: which handles its arguments hold and where,
 which resource manager translates them, what the device does then, and what is recorded. The procedures are
 told by their RPC numbers.
 */
module HandlerEffects {
  import opened Attempts
  import opened Bytes
  import opened ApiLog
  import opened Replay
  import opened ReplayLaws

  /** An RPC; the server does not look at arguments that are too short. */
  function Served(s: State, q: Request): State {
    if ArgumentsFit(ClassOf(q.procedure), q.arguments) then RequestServed(s, q) else s
  }

  /** What a handle of the client means to the server: through the map, a live object or a default stream. */
  predicate Means(s: State, kind: Kind, h: Handle, t: Target) {
    var there := if (kind, h) in s.rm then s.rm[(kind, h)] else h;
    if (kind, there) in s.device.live then t == Made(s.device.live[(kind, there)])
    else kind == Streams && there <= 2 && t == BuiltIn(there)
  }

  ghost predicate Known(s: State, kind: Kind, h: Handle) {
    exists t :: Means(s, kind, h, t)
  }

  /** The numbers among the arguments. */
  function Number(q: Request, at: nat): nat
    requires at + 8 <= |q.arguments|
  {
    Field(q.arguments, at, 8)
  }

  /** The record of a call: procedure, arguments with the client's handles, and the error code. */
  predicate Tells(r: Record, q: Request, err: nat) {
    r.function_ == q.procedure && r.argSize == |q.arguments| && r.arguments == q.arguments &&
    |r.result| == 16 && Field(r.result, 0, 4) == err && r.dataSize == 0 && r.data == Null
  }

  predicate OneRecordMore(s: State, t: State, q: Request, err: nat) {
    |t.log| == |s.log| + 1 && s.log <= t.log && Tells(t.log[|s.log|], q, err) && t.rm == s.rm
  }

  /** The device has made a call on these targets, and keeps all its objects. */
  predicate Done(s: State, t: State, q: Request, targets: seq<Target>, scalars: seq<Byte>) {
    OneRecordMore(s, t, q, 0) &&
    t.device == Device(s.device.objects, s.device.live, s.device.trace + [Effect(q.procedure, targets, scalars)])
  }

  /** It has destroyed the object with this handle, and no other. */
  predicate Gone(s: State, t: State, q: Request, kind: Kind, h: Handle, id: nat) {
    var there := if (kind, h) in s.rm then s.rm[(kind, h)] else h;
    OneRecordMore(s, t, q, 0) && t.device.objects == s.device.objects &&
    t.device.trace == s.device.trace + [Effect(q.procedure, [Made(id)], [])] &&
    t.device.live == s.device.live - {(kind, there)}
  }

  /* ---------- calls on handles ---------- */

  lemma RecordTells(q: Request, err: nat, stale: seq<Byte>)
    requires err < U32 && ClassOf(q.procedure).Calls?
    ensures Tells(NewRecord(q.procedure, q.arguments, err, 0, stale, []), q, err)
  {
    hide ClassOf, ToLE, FromLE;
    var r := NewRecord(q.procedure, q.arguments, err, 0, stale, []);
    assert r.result[0..4] == ToLE(err, 4);
    Pow256Values();
    FitsRoundTrip(err, 4);
  }

  lemma MeansNamed(s: State, kind: Kind, h: Handle, t: Target)
    requires Means(s, kind, h, t)
    ensures var n := Translate(s.rm, (kind, h));
            Named(s.device, n) && Resolve(s.device, n) == t && (t.Made? <==> n in s.device.live)
  {
  }

  lemma CallServed(s: State, q: Request, targets: seq<Target>)
    requires ClassOf(q.procedure).Calls? && ArgumentsFit(ClassOf(q.procedure), q.arguments)
    requires var kinds := ClassOf(q.procedure).operands;
             |targets| == |kinds| &&
             forall i :: 0 <= i < |kinds| ==> Means(s, kinds[i], Number(q, 8 * i), targets[i])
    requires ClassOf(q.procedure).destroys ==>
               |targets| == 1 && targets[0].Made? && ClassOf(q.procedure).scalarSize == 0
    ensures var c := ClassOf(q.procedure);
            if c.destroys then
              |c.operands| == 1 && Gone(s, Served(s, q), q, c.operands[0], Number(q, 0), targets[0].id)
            else Done(s, Served(s, q), q, targets, Scalars(c, q.arguments))
  {
    hide ClassOf, Means, NewRecord, Tells, Field;
    var c := ClassOf(q.procedure);
    var ns := TranslateAll(s.rm, Operands(c.operands, q.arguments));
    forall i | 0 <= i < |ns|
      ensures Named(s.device, ns[i]) && Resolve(s.device, ns[i]) == targets[i]
      ensures targets[i].Made? <==> ns[i] in s.device.live
    {
      MeansNamed(s, c.operands[i], Number(q, 8 * i), targets[i]);
    }
    assert ResolveAll(s.device, ns) == targets;
    assert c.scalarSize == 0 ==> Scalars(c, q.arguments) == [];
    assert c.destroys ==> targets == [Made(targets[0].id)] && ns[0] == Translate(s.rm, (c.operands[0], Number(q, 0)));
    RecordTells(q, 0, q.stale);
  }

  /** cudaStreamSynchronize; cudaEventQuery and cudaEventSynchronize. */
  lemma OneHandleCall(s: State, q: Request, t: Target)
    requires |q.arguments| >= 8
    requires (q.procedure == 267 && Means(s, Streams, Number(q, 0), t)) ||
             (q.procedure in {284, 287} && Means(s, Events, Number(q, 0), t))
    ensures Done(s, Served(s, q), q, [t], [])
  {
    hide Means, Done, Field;
    CallServed(s, q, [t]);
    assert q.arguments[8..8] == [];
  }

  /** cudaStreamCopyAttributes, cudaEventRecord, cusolverDnSetStream, cublasSetStream. */
  lemma TwoHandleCall(s: State, q: Request, first: Target, second: Target)
    requires |q.arguments| >= 16 && Means(s, Streams, Number(q, 8), second)
    requires (q.procedure == 254 && Means(s, Streams, Number(q, 0), first)) ||
             (q.procedure == 285 && Means(s, Events, Number(q, 0), first)) ||
             (q.procedure == 2002 && Means(s, Cusolver, Number(q, 0), first)) ||
             (q.procedure == 3008 && Means(s, Cublas, Number(q, 0), first))
    ensures Done(s, Served(s, q), q, [first, second], [])
  {
    hide Means, Done, Field;
    CallServed(s, q, [first, second]);
    assert q.arguments[16..16] == [];
  }

  /** cudaStreamWaitEvent and cudaEventRecordWithFlags, with flags of four bytes. */
  lemma CallWithFlags(s: State, q: Request, first: Target, second: Target)
    requires |q.arguments| >= 20
    requires (q.procedure == 268 && Means(s, Streams, Number(q, 0), first) && Means(s, Events, Number(q, 8), second)) ||
             (q.procedure == 286 && Means(s, Events, Number(q, 0), first) && Means(s, Streams, Number(q, 8), second))
    ensures Done(s, Served(s, q), q, [first, second], q.arguments[16..20])
  {
    hide Means, Done, Field;
    CallServed(s, q, [first, second]);
  }

  /** cublasSetWorkspace, with a size of eight bytes. */
  lemma SetWorkspace(s: State, q: Request, handle: Target, memory: Target)
    requires |q.arguments| >= 24 && q.procedure == 3009
    requires Means(s, Cublas, Number(q, 0), handle) && Means(s, Memory, Number(q, 8), memory)
    ensures Done(s, Served(s, q), q, [handle, memory], q.arguments[16..24])
  {
    hide Means, Done, Field;
    CallServed(s, q, [handle, memory]);
  }

  /** cublasSetMathMode */
  lemma SetMathMode(s: State, q: Request, handle: Target)
    requires |q.arguments| >= 12 && q.procedure == 3010 && Means(s, Cublas, Number(q, 0), handle)
    ensures Done(s, Served(s, q), q, [handle], q.arguments[8..12])
  {
    hide Means, Done, Field;
    CallServed(s, q, [handle]);
  }

  /** cudaDeviceSynchronize, cudaSetDevice and cudaSetDeviceFlags. */
  lemma CallWithoutHandles(s: State, q: Request)
    ensures q.procedure == 116 ==> Done(s, Served(s, q), q, [], [])
    ensures q.procedure in {126, 127} && |q.arguments| >= 4 ==> Done(s, Served(s, q), q, [], q.arguments[..4])
  {
    hide Done;
    if q.procedure == 116 || (q.procedure in {126, 127} && |q.arguments| >= 4) {
      CallServed(s, q, []);
    }
  }

  /** The procedures that destroy an object, and its kind. */
  predicate Destroys(procedure: nat, kind: Kind) {
    (procedure == 402 && kind == Memory) || (procedure == 258 && kind == Streams) ||
    (procedure == 282 && kind == Events) || (procedure == 2006 && kind == Cusolver) ||
    (procedure == 3003 && kind == Cublas)
  }

  /** cudaFree, cudaStreamDestroy, cudaEventDestroy, cusolverDnDestroy, cublasDestroy. */
  lemma ObjectDestroyed(s: State, q: Request, kind: Kind, id: nat)
    requires |q.arguments| >= 8 && Destroys(q.procedure, kind) && Means(s, kind, Number(q, 0), Made(id))
    ensures Gone(s, Served(s, q), q, kind, Number(q, 0), id)
  {
    hide Means, Gone, Field;
    CallServed(s, q, [Made(id)]);
  }

  /* ---------- handles that mean nothing ---------- */

  /** The procedures with a handle of the kind at a place in their arguments. */
  predicate Takes(procedure: nat, kind: Kind, at: nat) {
    match kind
    case Streams =>
      (at == 0 && procedure in {254, 258, 267, 268}) || (at == 8 && procedure in {254, 285, 286, 2002, 3008})
    case Events => (at == 0 && procedure in {282, 284, 285, 286, 287}) || (at == 8 && procedure == 268)
    case Memory => (at == 0 && procedure == 402) || (at == 8 && procedure == 3009)
    case Cusolver => at == 0 && procedure in {2002, 2006}
    case Cublas => at == 0 && procedure in {3003, 3008, 3009, 3010}
  }

  lemma UnknownNotNamed(s: State, kind: Kind, h: Handle)
    requires !Known(s, kind, h)
    ensures !Named(s.device, Translate(s.rm, (kind, h)))
  {
    var n := Translate(s.rm, (kind, h));
    if n in s.device.live {
      assert Means(s, kind, h, Made(s.device.live[n]));
    } else if Named(s.device, n) {
      assert Means(s, kind, h, BuiltIn(n.1));
    }
  }

  lemma OperandTaken(q: Request, kind: Kind, at: nat)
    requires Takes(q.procedure, kind, at) && |q.arguments| >= 24
    ensures ClassOf(q.procedure).Calls? && ArgumentsFit(ClassOf(q.procedure), q.arguments)
    ensures at % 8 == 0 && at / 8 < |ClassOf(q.procedure).operands| && ClassOf(q.procedure).operands[at / 8] == kind
  {
  }

  /** A call with such a handle does nothing on the device, and records an error. */
  lemma UnknownHandle(s: State, q: Request, kind: Kind, at: nat)
    requires Takes(q.procedure, kind, at) && |q.arguments| >= 24 && !Known(s, kind, Number(q, at))
    ensures Served(s, q).device == s.device && OneRecordMore(s, Served(s, q), q, 1)
  {
    OperandTaken(q, kind, at);
    hide ClassOf, Means, NewRecord, Tells, Field, Known, Takes, Named, Translate;
    UnknownNotNamed(s, kind, Number(q, at));
    var c := ClassOf(q.procedure);
    var ns := TranslateAll(s.rm, Operands(c.operands, q.arguments));
    assert 8 * (at / 8) == at;
    assert !Named(s.device, ns[at / 8]);
    RecordTells(q, 1, q.stale);
  }

  /* ---------- new objects ---------- */

  /** The procedures that make an object, its kind, and how many bytes of arguments are its flags, priority or size. */
  predicate Makes(procedure: nat, kind: Kind, size: nat) {
    match kind
    case Memory => procedure == 414 && size == 8
    case Streams =>
      (procedure == 255 && size == 0) || (procedure == 256 && size == 4) || (procedure == 257 && size == 8)
    case Events => (procedure == 280 && size == 0) || (procedure == 281 && size == 4)
    case Cusolver => procedure == 2001 && size == 0
    case Cublas => procedure == 3001 && size == 0
  }

  /** The device has one object more, under a handle. */
  predicate OneObjectMore(d: Device, e: Device, kind: Kind, h: Handle, o: Object) {
    e.objects == d.objects + [o] && e.live == d.live[(kind, h) := |d.objects|] && e.trace == d.trace
  }

  /** The client gets the device's handle, which the record holds in the last eight bytes of the result. */
  lemma ObjectMade(s: State, q: Request, kind: Kind, size: nat)
    requires Makes(q.procedure, kind, size) && |q.arguments| >= size && q.data == [] && q.handle < U64
    ensures var t := Served(s, q);
            OneRecordMore(s, t, q, 0) && Field(t.log[|s.log|].result, 8, 8) == q.handle &&
            OneObjectMore(s.device, t.device, kind, q.handle, Object(q.procedure, q.arguments[..size]))
  {
    hide ToLE, FromLE;
    var r := RecordOf(q).result;
    assert r[0..4] == ToLE(0, 4) && r[8..16] == ToLE(q.handle, 8);
    Pow256Values();
    FitsRoundTrip(0, 4);
    FitsRoundTrip(q.handle, 8);
  }

  /** Restored, it has the same flags, priority or size, and its old handle leads to the new one. */
  lemma ObjectRestored(s: State, r: Record, w: World, kind: Kind, size: nat)
    requires Makes(r.function_, kind, size) && |r.arguments| >= size && |r.result| == 16
    ensures var t := RecordRestored(s, r, w);
            var made := w.handles(|s.device.objects|);
            t.Ok? && t.value.log == s.log + [r] && t.value.rm == s.rm[(kind, Field(r.result, 8, 8)) := made] &&
            OneObjectMore(s.device, t.value.device, kind, made, Object(r.function_, r.arguments[..size]))
  {
    hide Field;
  }

  /* ---------- records that are called again, and others ---------- */

  const CALLED_AGAIN: set<nat> :=
    {402, 254, 258, 267, 268, 282, 284, 285, 286, 287, 116, 126, 127, 2002, 2006, 3003, 3008, 3009, 3010}

  /** Restoring a record of a call is serving the call once more. */
  lemma CallRestored(s: State, r: Record, w: World)
    requires r.function_ in CALLED_AGAIN && |r.arguments| >= 24 && |r.result| == 16
    ensures var before := s.(log := s.log + [r]);
            var again := Request(r.function_, r.arguments, [], 0, w.stale(|s.log| + 1), true);
            RecordRestored(s, r, w) == Ok(Served(before, again))
  {
    hide Perform, NewRecord, Operands, Scalars;
  }

  /** Copies and launches have no effect on handles, neither when they are served nor when they are restored. */
  lemma TransfersAndLaunches(s: State, q: Request, r: Record, w: World)
    requires q.procedure in {440, 443, 441, 445, 317, 314} && r.function_ in {440, 443, 441, 445, 317, 314}
    requires |r.result| == 16
    ensures var t := Served(s, q);
            if q.procedure == 441 || (q.procedure == 317 && !q.firstRound) then t == s
            else t.device == s.device && t.rm == s.rm && |t.log| == |s.log| + 1 && s.log <= t.log &&
                 t.log[|s.log|].function_ == q.procedure && t.log[|s.log|].arguments == q.arguments
    ensures RecordRestored(s, r, w) == Ok(s.(log := s.log + [r]))
  {
    hide ToLE;
  }

  /* ---------- which requests succeed ---------- */

  /** A handle the clients know: of a live object, or of a default stream. */
  predicate Knows(d: Device, kind: Kind, h: Handle) {
    (kind, h) in d.live || (kind == Streams && h <= 2)
  }

  /** A call succeeds if and only if the clients know all its handles, and it destroys a live object if any. */
  lemma CallSucceeds(d: Device, q: Request)
    requires q.procedure in CALLED_AGAIN && 24 <= |q.arguments| < U64 && q.data == [] && q.handle < U64
    ensures Succeeds(d, q) <==>
            (forall kind :: Takes(q.procedure, kind, 0) ==> Knows(d, kind, Number(q, 0))) &&
            (forall kind :: Takes(q.procedure, kind, 8) ==> Knows(d, kind, Number(q, 8))) &&
            (forall kind :: Destroys(q.procedure, kind) ==> (kind, Number(q, 0)) in d.live)
  {
    hide Field, Takes, Destroys;
    var c := ClassOf(q.procedure);
    CallClasses(q.procedure);
    hide ClassOf;
    var ns := Operands(c.operands, q.arguments);
    assert |ns| > 0 ==> ns[0] == (c.operands[0], Number(q, 0));
    assert |ns| > 1 ==> ns[1] == (c.operands[1], Number(q, 8));
    assert forall kind, h :: Named(d, (kind, h)) <==> Knows(d, kind, h);
    assert |ns| > 0 ==> Takes(q.procedure, c.operands[0], 0);
    assert |ns| > 1 ==> Takes(q.procedure, c.operands[1], 8);
    assert |ns| <= 2;
    assert CallWorks(d, ns, c.destroys) <==>
           (|ns| > 0 ==> Named(d, ns[0])) && (|ns| > 1 ==> Named(d, ns[1])) && (c.destroys ==> ns[0] in d.live);
  }

  lemma CallClasses(procedure: nat)
    requires procedure in CALLED_AGAIN
    ensures var c := ClassOf(procedure);
            c.Calls? && |c.operands| <= 2 && 8 * |c.operands| + c.scalarSize <= 24 &&
            (c.destroys <==> exists kind :: Destroys(procedure, kind)) &&
            (forall kind :: Takes(procedure, kind, 0) <==> |c.operands| > 0 && c.operands[0] == kind) &&
            (forall kind :: Takes(procedure, kind, 8) <==> |c.operands| > 1 && c.operands[1] == kind) &&
            (forall kind :: Destroys(procedure, kind) ==> Takes(procedure, kind, 0))
  {
    assert Destroys(402, Memory) && Destroys(258, Streams) && Destroys(282, Events) && Destroys(2006, Cusolver) &&
           Destroys(3003, Cublas);
  }

  /** Making an object succeeds under any handle that is not a default stream's; transfers and launches succeed. */
  lemma OthersSucceed(d: Device, q: Request, kind: Kind, size: nat)
    requires |q.arguments| < U64 && |q.data| < U64 && q.handle < U64
    ensures Makes(q.procedure, kind, size) && |q.arguments| >= size && q.data == [] ==>
              (Succeeds(d, q) <==> q.handle > 2)
    ensures q.procedure in {440, 443, 441, 445, 317, 314} ==> Succeeds(d, q)
  {
  }
}
