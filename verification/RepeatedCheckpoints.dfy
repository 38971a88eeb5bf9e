/**
 Any number of checkpoints. A restored server's log holds every replayed call once more, so restoring
 it makes those calls again, and twice as many with each checkpoint. But the clients' handles still lead
 to the same objects, whatever was served before, between and after the checkpoints.
 */
module RepeatedCheckpoints {
  import opened Attempts
  import opened Bytes
  import opened ApiLog
  import opened Replay
  import opened ReplayLaws
  import opened RestoredService

  /* ---------- how logs grow ---------- */

  function CallCount(rs: seq<Record>): nat {
    if rs == [] then 0 else (if ClassOf(rs[0].function_).Calls? then 1 else 0) + CallCount(rs[1..])
  }

  /** A restored log is longer by its calls, and has twice as many of them. */
  lemma {:induction false} RestoredLogDoublesCalls(rs: seq<Record>, at: nat, w: World)
    ensures |RestoredLog(rs, at, w)| == |rs| + CallCount(rs)
    ensures CallCount(RestoredLog(rs, at, w)) == 2 * CallCount(rs)
    decreases |rs|
  {
    hide ClassOf, NewRecord;
    if rs != [] {
      var first := Rerecorded(rs[0], at, w);
      var rest := RestoredLog(rs[1..], at + |first|, w);
      RestoredLogDoublesCalls(rs[1..], at + |first|, w);
      CallCountAppend(first, rest);
      RerecordedCalls(rs[0], at, w);
    }
  }

  lemma RerecordedCalls(r: Record, at: nat, w: World)
    ensures CallCount(Rerecorded(r, at, w)) == if ClassOf(r.function_).Calls? then 2 else 0
  {
    hide ClassOf;
    var rs := Rerecorded(r, at, w);
    if ClassOf(r.function_).Calls? {
      assert rs[1].function_ == r.function_ && rs[1..] == [rs[1]] && rs[1..][1..] == [];
      assert CallCount(rs[1..]) == 1;
    } else {
      assert rs[1..] == [];
    }
  }

  lemma {:induction false} CallCountAppend(a: seq<Record>, b: seq<Record>)
    ensures CallCount(a + b) == CallCount(a) + CallCount(b)
    decreases |a|
  {
    hide ClassOf;
    if a == [] {
      assert a + b == b;
    } else {
      assert (a + b)[1..] == a[1..] + b;
      CallCountAppend(a[1..], b);
    }
  }

  /* ---------- logs that repeat their calls ---------- */

  /** A record of the request: as it was first made, or, for a call, by a handler that replayed it. */
  predicate IsRecordOf(r: Record, q: Request) {
    Recorded(r) && Normal(r) == r && |r.result| == RESULT_SIZE &&
    if ClassOf(q.procedure).Calls? then r.function_ == q.procedure && r.arguments == q.arguments else r == RecordOf(q)
  }

  /** How many records of a request a log may have. */
  predicate MayHave(q: Request, n: nat) {
    if !Logged(q) then n == 0 else if ClassOf(q.procedure).Calls? then n >= 1 else n == 1
  }

  predicate AllRecordsOf(rs: seq<Record>, q: Request) {
    forall r :: r in rs ==> IsRecordOf(r, q)
  }

  /** The log has `counts[i]` records of the i-th request, one after the other. */
  predicate Repeats(rs: seq<Record>, qs: seq<Request>, counts: seq<nat>)
    decreases |qs|
  {
    |counts| == |qs| &&
    if qs == [] then rs == []
    else
      MayHave(qs[0], counts[0]) && counts[0] <= |rs| && AllRecordsOf(rs[..counts[0]], qs[0]) &&
      Repeats(rs[counts[0]..], qs[1..], counts[1..])
  }

  /** The clients' device after a request is made n times. */
  function StepTimes(ideal: Device, q: Request, n: nat): Device
    requires ArgumentsFit(ClassOf(q.procedure), q.arguments)
    decreases n
  {
    if n == 0 then ideal else StepTimes(IdealStep(ideal, q), q, n - 1)
  }

  function IdealTimes(ideal: Device, qs: seq<Request>, counts: seq<nat>): Device
    requires |counts| == |qs| && forall q :: q in qs ==> ArgumentsFit(ClassOf(q.procedure), q.arguments)
    decreases |qs|
  {
    if qs == [] then ideal else IdealTimes(StepTimes(ideal, qs[0], counts[0]), qs[1..], counts[1..])
  }

  /* ---------- handles do not depend on how often calls are made ---------- */

  /** Objects and names, whatever calls were made. */
  predicate SameHandles(a: Device, b: Device) {
    a.objects == b.objects && a.live == b.live
  }

  lemma SucceedsAlike(a: Device, b: Device, q: Request)
    requires SameHandles(a, b) && Succeeds(a, q)
    ensures Succeeds(b, q) && SameHandles(IdealStep(a, q), IdealStep(b, q))
    ensures NewToClients(a, q) <==> NewToClients(b, q)
  {
    hide ClassOf, Scalars;
    var c := ClassOf(q.procedure);
    if c.Calls? {
      var ns := Operands(c.operands, q.arguments);
      assert forall n :: Named(a, n) <==> Named(b, n);
      assert CallWorks(a, ns, c.destroys) && CallWorks(b, ns, c.destroys);
    }
  }

  /** A call that has been made works again, or destroys nothing any more. */
  predicate Settled(ideal: Device, q: Request)
    requires ClassOf(q.procedure).Calls? && ArgumentsFit(ClassOf(q.procedure), q.arguments)
  {
    var c := ClassOf(q.procedure);
    CallWorks(ideal, Operands(c.operands, q.arguments), c.destroys) == !c.destroys
  }

  lemma OnceSettled(ideal: Device, q: Request)
    requires Succeeds(ideal, q) && ClassOf(q.procedure).Calls?
    ensures Settled(IdealStep(ideal, q), q)
  {
    hide ClassOf, Scalars;
    var c := ClassOf(q.procedure);
    var ns := Operands(c.operands, q.arguments);
    if !c.destroys {
      StillWorks(ideal, IdealStep(ideal, q), ns);
    }
  }

  lemma {:induction false} SettledTimes(ideal: Device, q: Request, n: nat)
    requires ClassOf(q.procedure).Calls? && ArgumentsFit(ClassOf(q.procedure), q.arguments) && Settled(ideal, q)
    ensures SameHandles(StepTimes(ideal, q, n), ideal)
    decreases n
  {
    hide ClassOf, Scalars;
    if n > 0 {
      var c := ClassOf(q.procedure);
      var ns := Operands(c.operands, q.arguments);
      if !c.destroys {
        StillWorks(ideal, IdealStep(ideal, q), ns);
      }
      SettledTimes(IdealStep(ideal, q), q, n - 1);
    }
  }

  /** Making a request as often as a log may have it gives the clients the handles of making it once. */
  lemma TimesKeepsHandles(ideal: Device, q: Request, n: nat)
    requires Succeeds(ideal, q) && MayHave(q, n)
    ensures SameHandles(StepTimes(ideal, q, n), IdealStep(ideal, q))
  {
    hide ClassOf, CallWorks, Settled;
    if !Logged(q) {
      UnloggedStep(ideal, q);
    } else if ClassOf(q.procedure).Calls? {
      OnceSettled(ideal, q);
      SettledTimes(IdealStep(ideal, q), q, n - 1);
    }
  }

  lemma StillWorks(ideal: Device, ideal': Device, ns: seq<Name>)
    requires CallWorks(ideal, ns, false) && ideal'.live == ideal.live
    ensures CallWorks(ideal', ns, false)
  {
    assert forall n :: Named(ideal, n) <==> Named(ideal', n);
  }

  /** What is destroyed cannot be destroyed again, under either name. */
  lemma DestroyedTwice(ideal: Device, device: Device, rm: Names, procedure: nat, ns: seq<Name>, scalars: seq<Byte>)
    requires Simulates(ideal, device, rm) && CallWorks(ideal, ns, true)
    ensures var i := Perform(ideal, procedure, ns, scalars, true).1;
            Perform(i, procedure, ns, scalars, true) == (1, i)
    ensures var ms := TranslateAll(rm, ns); var d := Perform(device, procedure, ms, scalars, true).1;
            Perform(d, procedure, ms, scalars, true) == (1, d)
  {
    CallsAlike(ideal, device, rm, ns, true);
  }

  /* ---------- replaying the records of one request ---------- */

  predicate BothSettled(ideal: Device, device: Device, rm: Names, q: Request)
    requires ClassOf(q.procedure).Calls? && ArgumentsFit(ClassOf(q.procedure), q.arguments)
  {
    var c := ClassOf(q.procedure);
    Settled(ideal, q) &&
    (c.destroys ==> !CallWorks(device, TranslateAll(rm, Operands(c.operands, q.arguments)), true))
  }

  lemma RerecordedIsRecord(q: Request, err: nat, stale: seq<Byte>)
    requires ClassOf(q.procedure).Calls? && |q.arguments| < U64
    ensures IsRecordOf(NewRecord(q.procedure, q.arguments, err, 0, stale, []), q)
  {
    KnownProcedures(q.procedure);
    hide ClassOf, ToLE;
  }

  /** `more` is the log with `n` records of the request appended. */
  predicate Grown(log: seq<Record>, more: seq<Record>, q: Request, n: nat) {
    |more| == |log| + n && log <= more && AllRecordsOf(more[|log|..], q)
  }

  lemma CallGrows(t: State, r: Record, q: Request, w: World)
    requires IsRecordOf(r, q) && ClassOf(q.procedure).Calls? && |q.arguments| < U64
    requires ArgumentsFit(ClassOf(q.procedure), q.arguments)
    ensures var s := RecordRestored(t, r, w);
            s.Ok? && Grown(t.log, s.value.log, q, 2) && s.value.rm == t.rm &&
            s.value.device == CallHandled(t, q.procedure, q.arguments, []).device
  {
    hide ClassOf, NewRecord, Recorded, Normal, Perform;
    var s := RecordRestored(t, r, w).value;
    var c := ClassOf(q.procedure);
    var err := Perform(t.device, q.procedure, TranslateAll(t.rm, Operands(c.operands, q.arguments)),
                       Scalars(c, q.arguments), c.destroys).0;
    var again := NewRecord(q.procedure, q.arguments, err, 0, w.stale(|t.log| + 1), []);
    RerecordedIsRecord(q, err, w.stale(|t.log| + 1));
    assert s.log == t.log + [r] + [again];
    assert s.log[|t.log|..] == [r, again];
  }

  lemma FirstRecordReplayed(ideal: Device, q: Request, t: State, r: Record, w: World)
    requires Succeeds(ideal, q) && Simulates(ideal, t.device, t.rm) && ClassOf(q.procedure).Calls? && IsRecordOf(r, q)
    ensures var s := RecordRestored(t, r, w);
            s.Ok? && Grown(t.log, s.value.log, q, 2) && s.value.rm == t.rm &&
            Simulates(IdealStep(ideal, q), s.value.device, s.value.rm) &&
            BothSettled(IdealStep(ideal, q), s.value.device, s.value.rm, q) &&
            (NoneLost(ideal, t.device, t.rm) ==> NoneLost(IdealStep(ideal, q), s.value.device, s.value.rm))
  {
    CallGrows(t, r, q, w);
    OnceSettled(ideal, q);
    hide NoneLost, ClassOf, NewRecord, IsRecordOf, Simulates, CallWorks, RecordRestored, Grown, Settled;
    var c := ClassOf(q.procedure);
    var ns := Operands(c.operands, q.arguments);
    CallSimulated(ideal, t.device, t.rm, q.procedure, ns, Scalars(c, q.arguments), c.destroys);
    if c.destroys {
      DestroyedTwice(ideal, t.device, t.rm, q.procedure, ns, Scalars(c, q.arguments));
      NoSecondTime(t.device, q.procedure, TranslateAll(t.rm, ns), Scalars(c, q.arguments));
    }
  }

  lemma NoSecondTime(device: Device, procedure: nat, ns: seq<Name>, scalars: seq<Byte>)
    ensures var d := Perform(device, procedure, ns, scalars, true).1; !CallWorks(d, ns, true)
  {
  }

  lemma LaterRecordReplayed(ideal: Device, q: Request, t: State, r: Record, w: World)
    requires ClassOf(q.procedure).Calls? && ArgumentsFit(ClassOf(q.procedure), q.arguments) && |q.arguments| < U64
    requires Simulates(ideal, t.device, t.rm) && BothSettled(ideal, t.device, t.rm, q) && IsRecordOf(r, q)
    ensures var s := RecordRestored(t, r, w);
            s.Ok? && Grown(t.log, s.value.log, q, 2) && s.value.rm == t.rm &&
            Simulates(IdealStep(ideal, q), s.value.device, s.value.rm) &&
            BothSettled(IdealStep(ideal, q), s.value.device, s.value.rm, q) &&
            (NoneLost(ideal, t.device, t.rm) ==> NoneLost(IdealStep(ideal, q), s.value.device, s.value.rm))
  {
    CallGrows(t, r, q, w);
    hide NoneLost, ClassOf, NewRecord, IsRecordOf, Simulates, CallWorks, RecordRestored, Grown;
    var c := ClassOf(q.procedure);
    var ns := Operands(c.operands, q.arguments);
    if !c.destroys {
      CallSimulated(ideal, t.device, t.rm, q.procedure, ns, Scalars(c, q.arguments), false);
      StillWorks(ideal, IdealStep(ideal, q), ns);
    }
  }

  lemma GrownTwice(a: seq<Record>, b: seq<Record>, c: seq<Record>, q: Request, m: nat, n: nat)
    requires Grown(a, b, q, m) && Grown(b, c, q, n)
    ensures Grown(a, c, q, m + n)
  {
    hide IsRecordOf;
    assert c[|a|..] == b[|a|..] + c[|b|..];
  }

  lemma {:induction false} LaterRecordsReplayed(ideal: Device, q: Request, t: State, rs: seq<Record>, w: World)
    requires ClassOf(q.procedure).Calls? && ArgumentsFit(ClassOf(q.procedure), q.arguments) && |q.arguments| < U64
    requires Simulates(ideal, t.device, t.rm) && BothSettled(ideal, t.device, t.rm, q) && AllRecordsOf(rs, q)
    ensures var s := ReplayLog(t, rs, w);
            s.Ok? && Grown(t.log, s.value.log, q, 2 * |rs|) &&
            Simulates(StepTimes(ideal, q, |rs|), s.value.device, s.value.rm) &&
            (NoneLost(ideal, t.device, t.rm) ==> NoneLost(StepTimes(ideal, q, |rs|), s.value.device, s.value.rm))
    decreases |rs|
  {
    hide NoneLost, ClassOf, Simulates, BothSettled, IsRecordOf, RecordRestored, IdealStep;
    if rs != [] {
      LaterRecordReplayed(ideal, q, t, rs[0], w);
      var s := RecordRestored(t, rs[0], w).value;
      LaterRecordsReplayed(IdealStep(ideal, q), q, s, rs[1..], w);
      GrownTwice(t.log, s.log, ReplayLog(s, rs[1..], w).value.log, q, 2, 2 * |rs[1..]|);
    }
  }

  lemma OneRecordReplayed(ideal: Device, q: Request, t: State, w: World)
    requires Succeeds(ideal, q) && Simulates(ideal, t.device, t.rm) && FreshHandle(t, RecordOf(q), w)
    requires !ClassOf(q.procedure).Calls? && IsRecordOf(RecordOf(q), q)
    ensures var s := ReplayLog(t, [RecordOf(q)], w);
            s.Ok? && Simulates(StepTimes(ideal, q, 1), s.value.device, s.value.rm) && Grown(t.log, s.value.log, q, 1) &&
            (NewToClients(ideal, q) && NoneLost(ideal, t.device, t.rm) ==>
               NoneLost(StepTimes(ideal, q, 1), s.value.device, s.value.rm))
  {
    RequestReplayed(ideal, q, t, w);
    hide NoneLost, NewToClients, ClassOf, Simulates, RecordRestored, IdealStep, RecordOf, IsRecordOf;
    assert [RecordOf(q)][1..] == [];
    var s := RecordRestored(t, RecordOf(q), w).value;
    assert ReplayLog(t, [RecordOf(q)], w) == Ok(s);
    NotCalled(q, |t.log|, w);
    assert s.log[|t.log|..] == [RecordOf(q)];
    assert StepTimes(ideal, q, 1) == StepTimes(IdealStep(ideal, q), q, 0);
  }

  lemma NotCalled(q: Request, at: nat, w: World)
    requires !ClassOf(q.procedure).Calls?
    ensures Rerecorded(RecordOf(q), at, w) == [RecordOf(q)]
  {
    hide ClassOf;
  }

  /** How many records of a request a restored log has: twice as many, if it is a call. */
  function Doubled(q: Request, n: nat): nat {
    if ClassOf(q.procedure).Calls? then 2 * n else n
  }

  /** All the records of one request: the device makes the call as often as they say, and records it as often again. */
  lemma RecordsReplayed(ideal: Device, q: Request, t: State, rs: seq<Record>, w: World)
    requires Succeeds(ideal, q) && Simulates(ideal, t.device, t.rm) && MayHave(q, |rs|) && AllRecordsOf(rs, q)
    requires FreshHandles(t, rs, w)
    ensures var s := ReplayLog(t, rs, w);
            s.Ok? && MayHave(q, Doubled(q, |rs|)) && Grown(t.log, s.value.log, q, Doubled(q, |rs|)) &&
            Simulates(StepTimes(ideal, q, |rs|), s.value.device, s.value.rm) &&
            (NewToClients(ideal, q) && NoneLost(ideal, t.device, t.rm) ==>
               NoneLost(StepTimes(ideal, q, |rs|), s.value.device, s.value.rm))
  {
    hide NoneLost, NewToClients, ClassOf, Simulates, BothSettled, IsRecordOf, RecordRestored, IdealStep, FreshHandle,
         RecordOf, Logged, CallWorks;
    if !Logged(q) {
      UnloggedIgnored(q);
    } else if ClassOf(q.procedure).Calls? {
      FirstRecordReplayed(ideal, q, t, rs[0], w);
      var s := RecordRestored(t, rs[0], w).value;
      LaterRecordsReplayed(IdealStep(ideal, q), q, s, rs[1..], w);
      GrownTwice(t.log, s.log, ReplayLog(s, rs[1..], w).value.log, q, 2, 2 * |rs[1..]|);
    } else {
      OnlyRecord(rs[0], q);
      assert rs == [RecordOf(q)];
      OneRecordReplayed(ideal, q, t, w);
    }
  }

  lemma OnlyRecord(r: Record, q: Request)
    requires IsRecordOf(r, q) && !ClassOf(q.procedure).Calls?
    ensures r == RecordOf(q)
  {
    hide ClassOf, RecordOf;
  }

  /* ---------- replaying whole logs ---------- */

  function AllDoubled(qs: seq<Request>, counts: seq<nat>): (more: seq<nat>)
    requires |counts| == |qs|
    ensures |more| == |qs|
  {
    if qs == [] then [] else [Doubled(qs[0], counts[0])] + AllDoubled(qs[1..], counts[1..])
  }

  lemma {:induction false} ReplayInParts(t: State, a: seq<Record>, b: seq<Record>, w: World)
    requires FreshHandles(t, a + b, w)
    ensures FreshHandles(t, a, w)
    ensures var s := ReplayLog(t, a, w);
            if s.Ok? then FreshHandles(s.value, b, w) && ReplayLog(t, a + b, w) == ReplayLog(s.value, b, w)
            else ReplayLog(t, a + b, w) == s
    decreases |a|
  {
    hide RecordRestored, FreshHandle;
    if a == [] {
      assert a + b == b;
    } else {
      assert (a + b)[0] == a[0] && (a + b)[1..] == a[1..] + b;
      if RecordRestored(t, a[0], w).Ok? {
        ReplayInParts(RecordRestored(t, a[0], w).value, a[1..], b, w);
      }
    }
  }

  /**
   Replaying a log that repeats the calls of a history: the server simulates the device on which they are
   made as often, its names are those of the clients, and its new log repeats every call twice as often.
   */
  lemma {:induction false} RepeatedLogReplayed(a: Device, b: Device, qs: seq<Request>, counts: seq<nat>,
                                               rs: seq<Record>, t: State, w: World)
    requires History(a, qs) && SameHandles(a, b) && Simulates(b, t.device, t.rm)
    requires forall q :: q in qs ==> ArgumentsFit(ClassOf(q.procedure), q.arguments)
    requires Repeats(rs, qs, counts) && FreshHandles(t, rs, w)
    ensures var r := ReplayLog(t, rs, w);
            r.Ok? && Simulates(IdealTimes(b, qs, counts), r.value.device, r.value.rm) &&
            SameHandles(Ideal(a, qs), IdealTimes(b, qs, counts)) &&
            t.log <= r.value.log && Repeats(r.value.log[|t.log|..], qs, AllDoubled(qs, counts)) &&
            (DistinctHandles(a, qs) && NoneLost(b, t.device, t.rm) ==>
               NoneLost(IdealTimes(b, qs, counts), r.value.device, r.value.rm))
    decreases |qs|
  {
    hide NoneLost, NewToClients, ClassOf, Simulates, IsRecordOf, IdealStep, StepTimes, CallWorks, MayHave,
         FreshHandles, ReplayLog, AllRecordsOf;
    if qs == [] {
      NothingReplayed(t, w);
    } else {
      var q, n := qs[0], counts[0];
      assert rs == rs[..n] + rs[n..];
      ReplayInParts(t, rs[..n], rs[n..], w);
      SucceedsAlike(a, b, q);
      TimesKeepsHandles(b, q, n);
      RecordsReplayed(b, q, t, rs[..n], w);
      var k, s := Doubled(q, n), ReplayLog(t, rs[..n], w).value;
      RepeatedLogReplayed(IdealStep(a, q), StepTimes(b, q, n), qs[1..], counts[1..], rs[n..], s, w);
      var log := ReplayLog(s, rs[n..], w).value.log;
      assert log[|t.log|..][..k] == s.log[|t.log|..] && log[|t.log|..][k..] == log[|s.log|..];
      assert AllDoubled(qs, counts)[1..] == AllDoubled(qs[1..], counts[1..]);
    }
  }

  lemma NothingReplayed(t: State, w: World)
    ensures ReplayLog(t, [], w) == Ok(t) && t.log[|t.log|..] == []
  {
  }

  /* ---------- checkpoint after checkpoint ---------- */

  predicate AllFit(qs: seq<Request>) {
    forall q :: q in qs ==> ArgumentsFit(ClassOf(q.procedure), q.arguments)
  }

  /** As often as a server that is not restored records its requests. */
  function Once(qs: seq<Request>): (counts: seq<nat>)
    ensures |counts| == |qs|
  {
    if qs == [] then [] else [if Logged(qs[0]) then 1 else 0] + Once(qs[1..])
  }

  lemma RequestRecordedOnce(ideal: Device, q: Request)
    requires Succeeds(ideal, q)
    ensures MayHave(q, |LoggedAs(q)|) && AllRecordsOf(LoggedAs(q), q)
  {
    RecordOfRequest(ideal, q);
    hide ClassOf, CallWorks, NewRecord, Recorded, Normal;
    if !Logged(q) {
      UnloggedIgnored(q);
    }
  }

  lemma {:induction false} LogRepeats(ideal: Device, qs: seq<Request>)
    requires History(ideal, qs)
    ensures Repeats(LogOf(qs), qs, Once(qs))
    decreases |qs|
  {
    hide ClassOf, CallWorks, IdealStep, RecordOf, IsRecordOf, MayHave, AllRecordsOf, Logged;
    if qs != [] {
      RequestRecordedOnce(ideal, qs[0]);
      LogRepeats(IdealStep(ideal, qs[0]), qs[1..]);
      var n := |LoggedAs(qs[0])|;
      assert LogOf(qs)[..n] == LoggedAs(qs[0]) && LogOf(qs)[n..] == LogOf(qs[1..]);
      assert Once(qs)[1..] == Once(qs[1..]);
    }
  }

  lemma OneCountEach(rs: seq<Record>, qs: seq<Request>, counts: seq<nat>)
    requires Repeats(rs, qs, counts)
    ensures |counts| == |qs|
  {
  }

  lemma FirstRepeats(rs: seq<Record>, qs: seq<Request>, counts: seq<nat>)
    requires qs != [] && |counts| == |qs| && counts[0] <= |rs|
    ensures Repeats(rs, qs, counts) <==>
            MayHave(qs[0], counts[0]) && AllRecordsOf(rs[..counts[0]], qs[0]) &&
            Repeats(rs[counts[0]..], qs[1..], counts[1..])
  {
    hide MayHave, AllRecordsOf;
  }

  lemma NoneRepeats(rs: seq<Record>, qs: seq<Request>, counts: seq<nat>)
    requires Repeats(rs, qs, counts)
    ensures if qs == [] then rs == [] && counts == [] else |counts| == |qs| && counts[0] <= |rs|
  {
  }

  lemma {:induction false} RepeatsTogether(a: seq<Record>, qs: seq<Request>, m: seq<nat>,
                                           b: seq<Record>, ps: seq<Request>, n: seq<nat>)
    requires Repeats(a, qs, m) && Repeats(b, ps, n)
    ensures Repeats(a + b, qs + ps, m + n)
    decreases |qs|
  {
    hide AllRecordsOf, MayHave, Repeats;
    NoneRepeats(a, qs, m);
    OneCountEach(b, ps, n);
    if qs == [] {
      assert a + b == b && qs + ps == ps && m + n == n;
    } else {
      FirstRepeats(a, qs, m);
      RepeatsTogether(a[m[0]..], qs[1..], m[1..], b, ps, n);
      assert (qs + ps)[1..] == qs[1..] + ps && (m + n)[1..] == m[1..] + n;
      assert (a + b)[m[0]..] == a[m[0]..] + b && (a + b)[..m[0]] == a[..m[0]];
      FirstRepeats(a + b, qs + ps, m + n);
    }
  }

  lemma {:induction false} RepeatsRecorded(rs: seq<Record>, qs: seq<Request>, counts: seq<nat>)
    requires Repeats(rs, qs, counts)
    ensures RecordedLog(rs) && forall r :: r in rs ==> Normal(r) == r
    decreases |qs|
  {
    hide ClassOf, Recorded, Normal, MayHave, RecordOf;
    if qs != [] {
      RepeatsRecorded(rs[counts[0]..], qs[1..], counts[1..]);
      assert rs == rs[..counts[0]] + rs[counts[0]..];
    }
  }

  /** Restoring the dump of such a log is replaying it. */
  lemma RepeatedLogRestored(rs: seq<Record>, qs: seq<Request>, counts: seq<nat>, w: World)
    requires Repeats(rs, qs, counts)
    ensures RestoreFrom(NEW_SERVER, DumpedLog(rs), 0, w) == ReplayLog(NEW_SERVER, rs, w)
  {
    hide Repeats, Recorded, Normal, ReplayLog, RestoreFrom, ReadLog, DumpedLog;
    RepeatsRecorded(rs, qs, counts);
    assert NormalLog(rs) == rs;
    LogReadBack(DumpedLog(rs), 0, rs);
    RestoringIsReplaying(NEW_SERVER, DumpedLog(rs), 0, w);
  }

  lemma {:induction false} HistoryAlike(a: Device, b: Device, qs: seq<Request>)
    requires History(a, qs) && SameHandles(a, b)
    ensures History(b, qs) && SameHandles(Ideal(a, qs), Ideal(b, qs))
    ensures DistinctHandles(a, qs) <==> DistinctHandles(b, qs)
    decreases |qs|
  {
    hide NewToClients, ClassOf, CallWorks, IdealStep, SameHandles;
    if qs != [] {
      SucceedsAlike(a, b, qs[0]);
      HistoryAlike(IdealStep(a, qs[0]), IdealStep(b, qs[0]), qs[1..]);
    }
  }

  lemma {:induction false} HistoriesTogether(ideal: Device, qs: seq<Request>, ps: seq<Request>)
    requires History(ideal, qs)
    ensures History(ideal, qs + ps) <==> History(Ideal(ideal, qs), ps)
    ensures History(ideal, qs + ps) ==> Ideal(ideal, qs + ps) == Ideal(Ideal(ideal, qs), ps)
    decreases |qs|
  {
    hide ClassOf, CallWorks, IdealStep;
    if qs == [] {
      assert qs + ps == ps;
    } else {
      assert (qs + ps)[1..] == qs[1..] + ps && (qs + ps)[0] == qs[0];
      HistoriesTogether(IdealStep(ideal, qs[0]), qs[1..], ps);
    }
  }

  lemma {:induction false} HistoryStarts(ideal: Device, qs: seq<Request>, ps: seq<Request>)
    requires History(ideal, qs + ps)
    ensures History(ideal, qs)
    decreases |qs|
  {
    hide ClassOf, CallWorks, IdealStep;
    if qs != [] {
      assert (qs + ps)[1..] == qs[1..] + ps && (qs + ps)[0] == qs[0];
      HistoryStarts(IdealStep(ideal, qs[0]), qs[1..], ps);
    }
  }

  /** What is served until a checkpoint is taken, and the world in which it is restored. */
  datatype Round = Round(requests: seq<Request>, w: World)

  predicate RoundsFit(rounds: seq<Round>) {
    forall i :: 0 <= i < |rounds| ==> AllFit(rounds[i].requests)
  }

  function AllRequests(rounds: seq<Round>): seq<Request> {
    if rounds == [] then []
    else var n := |rounds| - 1; AllRequests(rounds[..n]) + rounds[n].requests
  }

  /** Serving, dumping and restoring on a new server, again and again. */
  function Live(s: State, rounds: seq<Round>): Attempt<State>
    requires RoundsFit(rounds)
    decreases |rounds|
  {
    if rounds == [] then Ok(s)
    else
      var n := |rounds| - 1;
      var t :- Live(s, rounds[..n]);
      RestoreFrom(NEW_SERVER, DumpedLog(Served(t, rounds[n].requests).log), 0, rounds[n].w)
  }

  /** In every restore the new device gives no object the handle of a live one. */
  predicate FreshRestores(s: State, rounds: seq<Round>)
    requires RoundsFit(rounds)
    decreases |rounds|
  {
    rounds == [] ||
    (var n := |rounds| - 1;
     var t := Live(s, rounds[..n]);
     FreshRestores(s, rounds[..n]) &&
     (t.Ok? ==> FreshHandles(NEW_SERVER, Served(t.value, rounds[n].requests).log, rounds[n].w)))
  }

  /** How often the last server has made each request, if the first had made `done` and recorded it so often. */
  function Made(done: seq<Request>, counts: seq<nat>, rounds: seq<Round>): (made: seq<nat>)
    requires |counts| == |done| && rounds != []
    ensures |made| == |done| + |AllRequests(rounds)|
    decreases rounds, 0
  {
    var n := |rounds| - 1;
    RecordedIn(done, counts, rounds[..n]) + Once(rounds[n].requests)
  }

  /** And how many records of it there are in its log. */
  function RecordedIn(done: seq<Request>, counts: seq<nat>, rounds: seq<Round>): (recorded: seq<nat>)
    requires |counts| == |done|
    ensures |recorded| == |done| + |AllRequests(rounds)|
    decreases rounds, 1
  {
    if rounds == [] then counts else AllDoubled(done + AllRequests(rounds), Made(done, counts, rounds))
  }

  /**
   The server's device and log after the requests `done`: each call was made and recorded at least once. If the
   clients have not lost an object, the device has none that they have lost.
   */
  ghost predicate Upholds(s: State, done: seq<Request>, device: Device, counts: seq<nat>)
    requires History(NEW_DEVICE, done)
  {
    Simulates(device, s.device, s.rm) && SameHandles(Ideal(NEW_DEVICE, done), device) &&
    Repeats(s.log, done, counts) && (DistinctHandles(NEW_DEVICE, done) ==> NoneLost(device, s.device, s.rm))
  }

  /* What a server records does not depend on what its device makes of the requests. */

  lemma CallLogged(s: State, q: Request)
    requires ClassOf(q.procedure).Calls? && ArgumentsFit(ClassOf(q.procedure), q.arguments) && |q.arguments| < U64
    ensures Grown(s.log, RequestServed(s, q).log, q, 1)
  {
    hide ClassOf, NewRecord, Recorded, Normal, Perform, IsRecordOf;
    var c := ClassOf(q.procedure);
    var err := Perform(s.device, q.procedure, TranslateAll(s.rm, Operands(c.operands, q.arguments)),
                       Scalars(c, q.arguments), c.destroys).0;
    RerecordedIsRecord(q, err, q.stale);
    assert RequestServed(s, q).log[|s.log|..] == [NewRecord(q.procedure, q.arguments, err, 0, q.stale, [])];
  }

  /** A request is recorded with the names the clients use, whatever they mean to the server. */
  lemma OneServed(ideal: Device, q: Request, s: State)
    requires Succeeds(ideal, q)
    ensures Grown(s.log, RequestServed(s, q).log, q, if Logged(q) then 1 else 0)
    ensures MayHave(q, if Logged(q) then 1 else 0)
  {
    if ClassOf(q.procedure).Calls? {
      CallLogged(s, q);
    } else {
      RecordOfRequest(ideal, q);
    }
    if !Logged(q) {
      UnloggedIgnored(q);
    }
    hide ClassOf, CallWorks, RecordOf, Recorded, Normal, MakeObject;
  }

  lemma {:induction false} ServedLog(ideal: Device, qs: seq<Request>, s: State)
    requires History(ideal, qs) && AllFit(qs)
    ensures var t := Served(s, qs); s.log <= t.log && Repeats(t.log[|s.log|..], qs, Once(qs))
    decreases |qs|
  {
    hide ClassOf, CallWorks, IdealStep, RequestServed, IsRecordOf, MayHave, AllRecordsOf, Logged;
    if qs != [] {
      OneServed(ideal, qs[0], s);
      var t, u := RequestServed(s, qs[0]), Served(s, qs);
      ServedLog(IdealStep(ideal, qs[0]), qs[1..], t);
      var n := |t.log| - |s.log|;
      assert u.log[|s.log|..][..n] == t.log[|s.log|..] && u.log[|s.log|..][n..] == u.log[|t.log|..];
      assert Once(qs)[1..] == Once(qs[1..]);
    }
  }

  /** Even a server that has given out an ambiguous handle records what the clients asked for. */
  lemma RoundServed(s: State, done: seq<Request>, counts: seq<nat>, qs: seq<Request>)
    requires History(NEW_DEVICE, done + qs) && Repeats(s.log, done, counts) && AllFit(qs)
    ensures Repeats(Served(s, qs).log, done + qs, counts + Once(qs))
  {
    hide ClassOf, History, Ideal, Repeats, Served;
    HistoryStarts(NEW_DEVICE, done, qs);
    HistoriesTogether(NEW_DEVICE, done, qs);
    ServedLog(Ideal(NEW_DEVICE, done), qs, s);
    var log := Served(s, qs).log;
    RepeatsTogether(s.log, done, counts, log[|s.log|..], qs, Once(qs));
    assert s.log + log[|s.log|..] == log;
  }

  lemma RoundRestored(done: seq<Request>, rs: seq<Record>, counts: seq<nat>, w: World)
    requires History(NEW_DEVICE, done) && Repeats(rs, done, counts) && FreshHandles(NEW_SERVER, rs, w)
    ensures AllFit(done) && |counts| == |done|
    ensures var r := RestoreFrom(NEW_SERVER, DumpedLog(rs), 0, w);
            r.Ok? && Upholds(r.value, done, IdealTimes(NEW_DEVICE, done, counts), AllDoubled(done, counts))
  {
    hide ClassOf, History, Ideal, Simulates, Repeats, RestoreFrom, ReplayLog, FreshHandles, IdealTimes;
    HistoryFits(NEW_DEVICE, done);
    NewServerSimulates();
    OneCountEach(rs, done, counts);
    RepeatedLogRestored(rs, done, counts, w);
    RepeatedLogReplayed(NEW_DEVICE, NEW_DEVICE, done, counts, rs, NEW_SERVER, w);
    var log := ReplayLog(NEW_SERVER, rs, w).value.log;
    assert log[0..] == log;
  }

  /**
   Checkpoint, restore, checkpoint, restore: the second server simulates the device on which every call was
   made twice, and still leads every handle of the clients to its object.
   */
  lemma SecondCheckpointRestored(qs: seq<Request>, first: World, w: World)
    requires History(NEW_DEVICE, qs) && FreshHandles(NEW_SERVER, LogOf(qs), first)
    ensures AllFit(qs)
    ensures var s := RestoreFrom(NEW_SERVER, DumpedLog(LogOf(qs)), 0, first);
            s.Ok? &&
            (FreshHandles(NEW_SERVER, s.value.log, w) ==>
               var r := RestoreFrom(NEW_SERVER, DumpedLog(s.value.log), 0, w);
               r.Ok? && Upholds(r.value, qs, IdealTimes(NEW_DEVICE, qs, AllDoubled(qs, Once(qs))),
                                AllDoubled(qs, AllDoubled(qs, Once(qs)))))
  {
    hide ClassOf, History, Simulates, SameHandles, Repeats, RestoreFrom, FreshHandles, IdealTimes, LogOf, AllFit;
    LogRepeats(NEW_DEVICE, qs);
    RoundRestored(qs, LogOf(qs), Once(qs), first);
    var s := RestoreFrom(NEW_SERVER, DumpedLog(LogOf(qs)), 0, first).value;
    if FreshHandles(NEW_SERVER, s.log, w) {
      RoundRestored(qs, s.log, AllDoubled(qs, Once(qs)), w);
    }
  }

  /** Round after round; a handle that one server mistakes is the clients' own again after the next restore. */
  lemma {:induction false} RoundsUphold(s: State, done: seq<Request>, device: Device, counts: seq<nat>,
                                        rounds: seq<Round>)
    requires History(NEW_DEVICE, done) && Upholds(s, done, device, counts) && |counts| == |done|
    requires RoundsFit(rounds) && FreshRestores(s, rounds) && History(NEW_DEVICE, done + AllRequests(rounds))
    ensures var all, r := done + AllRequests(rounds), Live(s, rounds);
            r.Ok? && AllFit(all) &&
            Upholds(r.value, all,
                    if rounds == [] then device else IdealTimes(NEW_DEVICE, all, Made(done, counts, rounds)),
                    RecordedIn(done, counts, rounds))
    decreases |rounds|
  {
    hide ClassOf, History, Ideal, Simulates, SameHandles, NoneLost, DistinctHandles, RestoreFrom, FreshHandles,
         Repeats, Served, IdealTimes;
    HistoryFits(NEW_DEVICE, done + AllRequests(rounds));
    if rounds == [] {
      assert done + AllRequests(rounds) == done;
    } else {
      var n := |rounds| - 1;
      var lived := rounds[..n];
      var Round(qs, w) := rounds[n];
      assert done + AllRequests(rounds) == (done + AllRequests(lived)) + qs;
      HistoryStarts(NEW_DEVICE, done + AllRequests(lived), qs);
      RoundsUphold(s, done, device, counts, lived);
      var t := Live(s, lived).value;
      RoundServed(t, done + AllRequests(lived), RecordedIn(done, counts, lived), qs);
      RoundRestored(done + AllRequests(rounds), Served(t, qs).log, Made(done, counts, rounds), w);
    }
  }

  /** How often a request is made, if the log it was recorded in has been restored n more times. */
  function Times(q: Request, n: nat): nat {
    if !Logged(q) then 0 else if ClassOf(q.procedure).Calls? then Power2(n) else 1
  }

  function Power2(n: nat): nat {
    if n == 0 then 1 else 2 * Power2(n - 1)
  }

  lemma {:induction false} OnceAt(qs: seq<Request>, i: nat)
    requires i < |qs|
    ensures Once(qs)[i] == Times(qs[i], 0)
  {
    hide ClassOf, Logged;
    if i > 0 {
      OnceAt(qs[1..], i - 1);
    }
  }

  lemma {:induction false} DoubledAt(qs: seq<Request>, counts: seq<nat>, i: nat)
    requires |counts| == |qs| && i < |qs|
    ensures AllDoubled(qs, counts)[i] == Doubled(qs[i], counts[i])
  {
    hide Doubled;
    if i > 0 {
      DoubledAt(qs[1..], counts[1..], i - 1);
    }
  }

  lemma MadeBefore(rounds: seq<Round>)
    requires rounds != []
    ensures var n := |rounds| - 1;
            var earlier := AllRequests(rounds[..n]);
            AllRequests(rounds) == earlier + rounds[n].requests &&
            |RecordedIn([], [], rounds[..n])| == |earlier| &&
            Made([], [], rounds) == RecordedIn([], [], rounds[..n]) + Once(rounds[n].requests)
    ensures |rounds| > 1 ==>
              var before := rounds[..|rounds| - 1];
              |Made([], [], before)| == |AllRequests(before)| &&
              RecordedIn([], [], before) == AllDoubled(AllRequests(before), Made([], [], before))
  {
    if |rounds| > 1 {
      var before := rounds[..|rounds| - 1];
      assert [] + AllRequests(before) == AllRequests(before);
    }
  }

  /** A call that was served in one of the rounds is made twice as often with each restore after the first. */
  lemma {:induction false} MadeExactly(rounds: seq<Round>, k: nat, i: nat)
    requires k < |rounds| && i < |rounds[k].requests|
    ensures var at := |AllRequests(rounds[..k])| + i;
            at < |AllRequests(rounds)| && AllRequests(rounds)[at] == rounds[k].requests[i] &&
            Made([], [], rounds)[at] == Times(rounds[k].requests[i], |rounds| - 1 - k)
    decreases |rounds|
  {
    hide Doubled, Once, Times, AllRequests, Made, RecordedIn, AllDoubled;
    MadeBefore(rounds);
    var n := |rounds| - 1;
    var before, q := rounds[..n], rounds[k].requests[i];
    var at := |AllRequests(rounds[..k])| + i;
    if k == n {
      OnceAt(rounds[n].requests, i);
    } else {
      assert before[..k] == rounds[..k];
      MadeExactly(before, k, i);
      DoubledAt(AllRequests(before), Made([], [], before), at);
      TimesDoubled(q, n - 1 - k);
    }
  }

  lemma TimesDoubled(q: Request, n: nat)
    ensures Doubled(q, Times(q, n)) == Times(q, n + 1)
  {
    hide ClassOf, Logged;
  }

  /**
   However often the service is checkpointed and restored, and whatever it serves in between: every restore
   succeeds, and in the end every handle of the clients leads to its object, made in the same way and in the
   same order as on a server that was never restored. Only calls on objects have been made more often, as
   `MadeExactly` tells. What a server made of an ambiguous handle does not matter, once it is restored again.
   */
  lemma CheckpointsKeepHandles(rounds: seq<Round>)
    requires rounds != [] && RoundsFit(rounds) && FreshRestores(NEW_SERVER, rounds)
    requires History(NEW_DEVICE, AllRequests(rounds))
    ensures AllFit(AllRequests(rounds))
    ensures var qs, r := AllRequests(rounds), Live(NEW_SERVER, rounds);
            var device := IdealTimes(NEW_DEVICE, qs, Made([], [], rounds));
            r.Ok? && Simulates(device, r.value.device, r.value.rm) && SameHandles(Ideal(NEW_DEVICE, qs), device) &&
            (DistinctHandles(NEW_DEVICE, qs) ==> NoneLost(device, r.value.device, r.value.rm))
  {
    hide Simulates, NoneLost, Live, FreshRestores, RoundsFit, AllRequests, Made, RecordedIn, AllFit, IdealTimes;
    NewServerSimulates();
    assert [] + AllRequests(rounds) == AllRequests(rounds);
    assert Upholds(NEW_SERVER, [], NEW_DEVICE, []);
    RoundsUphold(NEW_SERVER, [], NEW_DEVICE, [], rounds);
  }

  /**
   And what is served after the last restore: the server goes on to do what the clients ask for, if and
   only if the handle of no object made since then is one that it translates to another.
   */
  lemma ServiceAfterCheckpoints(rounds: seq<Round>, last: seq<Request>)
    requires rounds != [] && RoundsFit(rounds) && FreshRestores(NEW_SERVER, rounds)
    requires History(NEW_DEVICE, AllRequests(rounds) + last) && AllFit(last)
    ensures AllFit(AllRequests(rounds))
    ensures var qs, r := AllRequests(rounds), Live(NEW_SERVER, rounds);
            var device := IdealTimes(NEW_DEVICE, qs, Made([], [], rounds));
            History(device, last) && SameHandles(Ideal(NEW_DEVICE, qs + last), Ideal(device, last)) &&
            r.Ok? && Simulates(device, r.value.device, r.value.rm) &&
            (NewHandlesFree(r.value, last) ==>
               (Simulates(Ideal(device, last), Served(r.value, last).device, r.value.rm) <==>
                AllUnambiguous(r.value.rm, last)))
  {
    hide ClassOf, History, Ideal, Simulates, NoneLost, DistinctHandles, SameHandles, Live, FreshRestores, RoundsFit,
         AllRequests, Served, AllUnambiguous, NewHandlesFree, Made, IdealTimes;
    var qs := AllRequests(rounds);
    HistoryStarts(NEW_DEVICE, qs, last);
    HistoriesTogether(NEW_DEVICE, qs, last);
    CheckpointsKeepHandles(rounds);
    var s, device := Live(NEW_SERVER, rounds).value, IdealTimes(NEW_DEVICE, qs, Made([], [], rounds));
    HistoryAlike(Ideal(NEW_DEVICE, qs), device, last);
    if NewHandlesFree(s, last) {
      HistoryServed(device, last, s);
    }
  }
}
