/**
 Checkpoint and restore of the server's handles: what the RPC handlers record and do, and how
 `cr_restore` reads the log back and does it again on a new device.

 The device gives every object it makes a number, in the order they are made, and keeps a trace of
 the calls on them; handles only name objects, and a name may be used again once its object is gone.
 The contents of device memory are not part of this model.
 */
module Replay {
  import opened Attempts
  import opened Bytes
  import opened ApiLog

  /** The kinds of handles with a resource manager that `cr_restore` fills. */
  datatype Kind = Streams | Events | Memory | Cusolver | Cublas

  type Handle = nat

  /** A handle and its kind: what a resource manager maps. */
  type Name = (Kind, Handle)

  /** What a procedure does with handles, and the branch `cr_restore_resources` takes for it. */
  datatype Class =
    | Creates(kind: Kind, paramSize: nat)
    | Ignored
    | Calls(operands: seq<Kind>, scalarSize: nat, destroys: bool)
    | Unknown

  function ClassOf(procedure: nat): (c: Class)
    ensures c.Calls? && c.destroys ==> |c.operands| == 1
  {
    match procedure
    case 414 => Creates(Memory, 8)                          // CUDA_MALLOC
    case 255 => Creates(Streams, 0)                         // CUDA_STREAM_CREATE
    case 256 => Creates(Streams, 4)                         // CUDA_STREAM_CREATE_WITH_FLAGS
    case 257 => Creates(Streams, 8)                         // CUDA_STREAM_CREATE_WITH_PRIORITY
    case 280 => Creates(Events, 0)                          // CUDA_EVENT_CREATE
    case 281 => Creates(Events, 4)                          // CUDA_EVENT_CREATE_WITH_FLAGS
    case 2001 => Creates(Cusolver, 0)                       // rpc_cusolverDnCreate
    case 3001 => Creates(Cublas, 0)                         // rpc_cublasCreate
    case 440 => Ignored                                     // CUDA_MEMCPY_HTOD
    case 443 => Ignored                                     // CUDA_MEMCPY_DTOD
    case 441 => Ignored                                     // CUDA_MEMCPY_DTOH
    case 445 => Ignored                                     // CUDA_MEMCPY_TO_SYMBOL
    case 317 => Ignored                                     // CUDA_LAUNCH_KERNEL
    case 314 => Ignored                                     // CUDA_LAUNCH_COOPERATIVE_KERNEL
    case 402 => Calls([Memory], 0, true)                    // CUDA_FREE
    case 254 => Calls([Streams, Streams], 0, false)         // CUDA_STREAM_COPY_ATTRIBUTES
    case 258 => Calls([Streams], 0, true)                   // CUDA_STREAM_DESTROY
    case 267 => Calls([Streams], 0, false)                  // CUDA_STREAM_SYNCHRONIZE
    case 268 => Calls([Streams, Events], 4, false)          // CUDA_STREAM_WAIT_EVENT
    case 282 => Calls([Events], 0, true)                    // CUDA_EVENT_DESTROY
    case 284 => Calls([Events], 0, false)                   // CUDA_EVENT_QUERY
    case 285 => Calls([Events, Streams], 0, false)          // CUDA_EVENT_RECORD
    case 286 => Calls([Events, Streams], 4, false)          // CUDA_EVENT_RECORD_WITH_FLAGS
    case 287 => Calls([Events], 0, false)                   // CUDA_EVENT_SYNCHRONIZE
    case 116 => Calls([], 0, false)                         // CUDA_DEVICE_SYNCHRONIZE
    case 126 => Calls([], 4, false)                         // CUDA_SET_DEVICE
    case 127 => Calls([], 4, false)                         // CUDA_SET_DEVICE_FLAGS
    case 2002 => Calls([Cusolver, Streams], 0, false)       // rpc_cusolverDnSetStream
    case 2006 => Calls([Cusolver], 0, true)                 // rpc_cusolverDnDestroy
    case 3003 => Calls([Cublas], 0, true)                   // rpc_cublasDestroy
    case 3008 => Calls([Cublas, Streams], 0, false)         // rpc_cublasSetStream
    case 3009 => Calls([Cublas, Memory], 8, false)          // rpc_cublasSetWorkspace
    case 3010 => Calls([Cublas], 4, false)                  // rpc_cublasSetMathMode
    case _ => Unknown
  }

  /* ---------- the device ---------- */

  /** What an object was made by, and its flags, priority or size. */
  datatype Object = Object(procedure: nat, params: seq<Byte>)

  /** What a handle names: an object, or (the default streams) something that is always there. */
  datatype Target = Made(id: nat) | BuiltIn(handle: Handle)

  datatype Effect = Effect(procedure: nat, targets: seq<Target>, scalars: seq<Byte>)

  datatype Device = Device(objects: seq<Object>, live: map<Name, nat>, trace: seq<Effect>)

  const NEW_DEVICE := Device([], map[], [])

  /** NULL, cudaStreamLegacy and cudaStreamPerThread: never the handle of an object. */
  predicate IsBuiltIn(h: Handle) {
    h <= 2
  }

  predicate Named(d: Device, n: Name) {
    n in d.live || (n.0 == Streams && IsBuiltIn(n.1))
  }

  function Resolve(d: Device, n: Name): Target {
    if n in d.live then Made(d.live[n]) else BuiltIn(n.1)
  }

  function ResolveAll(d: Device, ns: seq<Name>): (ts: seq<Target>)
    ensures |ts| == |ns| && forall i :: 0 <= i < |ns| ==> ts[i] == Resolve(d, ns[i])
  {
    seq(|ns|, i requires 0 <= i < |ns| => Resolve(d, ns[i]))
  }

  function MakeObject(d: Device, n: Name, o: Object): Device {
    Device(d.objects + [o], d.live[n := |d.objects|], d.trace)
  }

  /** The device knows all the names, and has an object to destroy. */
  predicate CallWorks(d: Device, ns: seq<Name>, destroys: bool) {
    (forall i :: 0 <= i < |ns| ==> Named(d, ns[i])) && (destroys ==> |ns| == 1 && ns[0] in d.live)
  }

  /** A call on the device: its error code, and the device after it. */
  function Perform(d: Device, procedure: nat, ns: seq<Name>, scalars: seq<Byte>, destroys: bool): (nat, Device) {
    if !CallWorks(d, ns, destroys) then (1, d)
    else
      (0, Device(d.objects, if destroys then d.live - {ns[0]} else d.live,
                 d.trace + [Effect(procedure, ResolveAll(d, ns), scalars)]))
  }

  /* ---------- the server ---------- */

  type Names = map<Name, Handle>

  /** `resource_mg_get`: a handle that was not restored stands for itself (as do all, in bypass mode). */
  function Translate(rm: Names, n: Name): Name {
    (n.0, if n in rm then rm[n] else n.1)
  }

  function TranslateAll(rm: Names, ns: seq<Name>): (ts: seq<Name>)
    ensures |ts| == |ns| && forall i :: 0 <= i < |ns| ==> ts[i] == Translate(rm, ns[i])
  {
    seq(|ns|, i requires 0 <= i < |ns| => Translate(rm, ns[i]))
  }

  /** The log, the resource managers' maps, the device. */
  datatype State = State(log: seq<Record>, rm: Names, device: Device)

  const NEW_SERVER := State([], map[], NEW_DEVICE)

  /** The arguments lie as in the argument struct: eight bytes a handle, then the scalars. */
  predicate ArgumentsFit(c: Class, arguments: seq<Byte>) {
    match c
    case Creates(_, n) => |arguments| >= n
    case Calls(operands, n, _) => |arguments| >= 8 * |operands| + n
    case _ => true
  }

  function Operands(kinds: seq<Kind>, arguments: seq<Byte>): (ns: seq<Name>)
    requires |arguments| >= 8 * |kinds|
    ensures |ns| == |kinds|
  {
    seq(|kinds|, i requires 0 <= i < |kinds| => (kinds[i], Field(arguments, 8 * i, 8)))
  }

  function Scalars(c: Class, arguments: seq<Byte>): seq<Byte>
    requires c.Calls? && ArgumentsFit(c, arguments)
  {
    arguments[8 * |c.operands|..8 * |c.operands| + c.scalarSize]
  }

  /** The record of a call. The macros leave part of the union `result` as it was: `stale`. */
  function NewRecord(procedure: nat, arguments: seq<Byte>, err: nat, handle: Handle, stale: seq<Byte>, data: seq<Byte>)
    : Record
  {
    var result :=
      if ClassOf(procedure).Creates? then ToLE(err, 4) + Zeros(4) + ToLE(handle, 8)
      else ToLE(err, 4) + seq(12, i requires 0 <= i => if i < |stale| then stale[i] else 0);
    Record(procedure, |arguments|, arguments, result, |data|, if data == [] then Null else Block(data))
  }

  /** The handlers of the calls on existing handles; `stale` is what the log's new element held. */
  function CallHandled(s: State, procedure: nat, arguments: seq<Byte>, stale: seq<Byte>): State
    requires ClassOf(procedure).Calls? && ArgumentsFit(ClassOf(procedure), arguments)
  {
    var c := ClassOf(procedure);
    var names := TranslateAll(s.rm, Operands(c.operands, arguments));
    var (err, device) := Perform(s.device, procedure, names, Scalars(c, arguments), c.destroys);
    State(s.log + [NewRecord(procedure, arguments, err, 0, stale, [])], s.rm, device)
  }

  const CUDA_MEMCPY_DTOH: nat := 441
  const CUDA_LAUNCH_KERNEL: nat := 317

  /**
   A call as the client sees it: `handle` is what it was given, if the call creates an object.
   `firstRound` tells whether `input_times` is 1 when the server gets it, which matters for launches.
   */
  datatype Request = Request(procedure: nat, arguments: seq<Byte>, data: seq<Byte>, handle: Handle, stale: seq<Byte>,
                             firstRound: bool)

  /** Copies from the device are not recorded, and launches only in the first round. */
  predicate Logged(q: Request) {
    q.procedure != CUDA_MEMCPY_DTOH && (q.procedure == CUDA_LAUNCH_KERNEL ==> q.firstRound)
  }

  function RecordOf(q: Request): Record {
    NewRecord(q.procedure, q.arguments, 0, q.handle, q.stale, q.data)
  }

  /** The effect of serving a request: it is recorded, if it is, with the names the client uses, and done. */
  function RequestServed(s: State, q: Request): State
    requires ArgumentsFit(ClassOf(q.procedure), q.arguments)
  {
    var c := ClassOf(q.procedure);
    match c
    case Creates(kind, n) =>
      State(s.log + [RecordOf(q)], s.rm, MakeObject(s.device, (kind, q.handle), Object(q.procedure, q.arguments[..n])))
    case Calls(_, _, _) => CallHandled(s, q.procedure, q.arguments, q.stale)
    case _ => if Logged(q) then s.(log := s.log + [RecordOf(q)]) else s
  }

  /** `cr_restore_streams`, `cr_restore_events` and the like: a new object under the handle `made`. */
  function ResourceMade(s: State, r: Record, made: Handle): State
    requires ClassOf(r.function_).Creates? && ArgumentsFit(ClassOf(r.function_), r.arguments) &&
             |r.result| == RESULT_SIZE
  {
    var Creates(kind, n) := ClassOf(r.function_);
    State(s.log, s.rm[(kind, Field(r.result, 8, 8)) := made],
          MakeObject(s.device, (kind, made), Object(r.function_, r.arguments[..n])))
  }

  /**
   The choices of the environment: the handle the device gives its k-th object, and what the k-th
   element of the log held before.
   */
  datatype World = World(handles: nat -> Handle, stale: nat -> seq<Byte>)

  /** `cr_restore_resources`. For a procedure the model does not know, nothing is said. */
  function ResourcesRestored(s: State, r: Record, w: World): Attempt<State> {
    var c := ClassOf(r.function_);
    if c.Unknown? || !ArgumentsFit(c, r.arguments) || |r.result| != RESULT_SIZE then Undefined
    else
      match c
      case Creates(_, _) => Ok(ResourceMade(s, r, w.handles(|s.device.objects|)))
      case Calls(_, _, _) => Ok(CallHandled(s, r.function_, r.arguments, w.stale(|s.log|)))
      case _ => Ok(s)
  }

  function RecordRestored(s: State, r: Record, w: World): Attempt<State> {
    ResourcesRestored(s.(log := s.log + [r]), r, w)
  }

  /** Replaying the records one after the other. */
  function ReplayLog(s: State, rs: seq<Record>, w: World): Attempt<State>
    decreases |rs|
  {
    if rs == [] then Ok(s)
    else
      var t :- RecordRestored(s, rs[0], w);
      ReplayLog(t, rs[1..], w)
  }

  /** The loop of `cr_restore` over the file's contents. */
  function RestoreFrom(s: State, content: seq<Byte>, pos: nat, w: World): Attempt<State>
    decreases |content| - pos
  {
    match ReadRecord(content, pos)
    case AtEnd => Ok(s)
    case Broken => Failed
    case Complete(r, next) =>
      var t :- RecordRestored(s, r, w);
      RestoreFrom(t, content, next, w)
  }

  /* ---------- the code ---------- */

  class Server {
    var log: seq<Record>
    var rm: Names
    var device: Device

    function Value(): State
      reads this
    {
      State(log, rm, device)
    }

    constructor ()
      ensures Value() == NEW_SERVER
    {
      log, rm, device := [], map[], NEW_DEVICE;
    }

    /** The body of the handlers of calls on existing handles. */
    method HandleCall(procedure: nat, arguments: seq<Byte>, stale: seq<Byte>)
      requires ClassOf(procedure).Calls? && ArgumentsFit(ClassOf(procedure), arguments)
      modifies this
      ensures Value() == CallHandled(old(Value()), procedure, arguments, stale)
    {
      var c := ClassOf(procedure);
      var at := |log|;
      log := log + [NewRecord(procedure, arguments, 0, 0, stale, [])];
      var (err, after) := Perform(device, procedure, TranslateAll(rm, Operands(c.operands, arguments)),
                                  Scalars(c, arguments), c.destroys);
      device := after;
      log := log[at := NewRecord(procedure, arguments, err, 0, stale, [])];
    }

    /** An RPC: one of the handlers runs. The client of a call that creates an object gets the device's own handle. */
    method Serve(q: Request)
      requires ArgumentsFit(ClassOf(q.procedure), q.arguments)
      modifies this
      ensures Value() == RequestServed(old(Value()), q)
    {
      match ClassOf(q.procedure) {
        case Creates(kind, n) =>
          device := MakeObject(device, (kind, q.handle), Object(q.procedure, q.arguments[..n]));
          log := log + [RecordOf(q)];
        case Calls(_, _, _) =>
          HandleCall(q.procedure, q.arguments, q.stale);
        case _ =>
          if Logged(q) {
            log := log + [RecordOf(q)];
          }
      }
    }

    /** `cr_restore_resources` */
    method RestoreResources(r: Record, w: World) returns (res: Attempt<()>)
      modifies this
      ensures match ResourcesRestored(old(Value()), r, w)
        case Ok(s) => res == Ok(()) && Value() == s
        case Failed => res == Failed
        case Undefined => res == Undefined
    {
      var c := ClassOf(r.function_);
      if c.Unknown? || !ArgumentsFit(c, r.arguments) || |r.result| != RESULT_SIZE {
        return Undefined;
      }
      match c {
        case Creates(kind, n) =>
          var made := w.handles(|device.objects|);
          device := MakeObject(device, (kind, made), Object(r.function_, r.arguments[..n]));
          rm := rm[(kind, Field(r.result, 8, 8)) := made];
        case Calls(_, _, _) =>
          HandleCall(r.function_, r.arguments, w.stale(|log|));
        case Ignored =>
      }
      return Ok(());
    }

    /** `cr_restore`, as far as the launch of the last kernel. */
    method Restore(f: File, w: World) returns (res: Attempt<()>)
      requires f.pos <= |f.content| && !f.eof
      modifies this, f`pos, f`eof
      ensures match RestoreFrom(old(Value()), f.content, old(f.pos), w)
        case Ok(s) => res == Ok(()) && Value() == s
        case Failed => res == Failed
        case Undefined => res == Undefined
    {
      ghost var whole := RestoreFrom(Value(), f.content, f.pos, w);
      while !f.eof
        invariant f.pos <= |f.content| && !f.eof
        invariant RestoreFrom(Value(), f.content, f.pos, w) == whole
        decreases |f.content| - f.pos
      {
        ghost var s := Value();
        var blank: Record := *;
        log := log + [blank];
        var code, record := RestoreApiRecord(f, blank);
        log := log[|log| - 1 := record];
        if code == 2 {
          log := log[..|log| - 1];
          assert Value() == s;
          return Ok(());
        } else if code != 0 {
          return Failed;
        }
        assert Value() == s.(log := s.log + [record]);
        var _ :- RestoreResources(record, w);
      }
      assert false;
    }
  }
}
