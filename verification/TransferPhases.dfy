/**
 The rounds of uploads and downloads that record and replay are built on. Client and server count
 them separately; the server sends the uploads of later rounds to the addresses of the first.
 */
module TransferPhases {
  import opened Attempts

  const MAX_INPUTS: nat := 100

  /** `input_times` and `output_times`, on either side. */
  datatype Counters = Counters(inputs: nat, outputs: nat)

  function CountUpload(c: Counters): Counters {
    if c.inputs == c.outputs then c.(inputs := c.inputs + 1) else c
  }

  function CountDownload(c: Counters): Counters {
    if c.inputs != c.outputs then c.(outputs := c.outputs + 1) else c
  }

  /* ---------- the server ---------- */

  /** The server's globals; `addresses` is `input_address`. */
  datatype Phases = Phases(counters: Counters, inputCount: nat, addresses: seq<nat>)

  function Start(): Phases {
    Phases(Counters(0, 0), 0, seq(MAX_INPUTS, _ => 0))
  }

  datatype Event = Upload(address: nat) | Download

  /** An upload: the state after it, and the address the data goes to. */
  function Uploaded(p: Phases, address: nat): Attempt<(Phases, nat)>
    requires |p.addresses| == MAX_INPUTS
  {
    if p.inputCount >= MAX_INPUTS then Undefined
    else if p.counters.outputs == 0 then
      Ok((Phases(CountUpload(p.counters), p.inputCount + 1, p.addresses[p.inputCount := address]), address))
    else
      Ok((Phases(CountUpload(p.counters), p.inputCount + 1, p.addresses), p.addresses[p.inputCount]))
  }

  function Downloaded(p: Phases): Phases {
    Phases(CountDownload(p.counters), if p.counters.inputs != p.counters.outputs then 0 else p.inputCount, p.addresses)
  }

  class TransferServer {
    var inputTimes: nat
    var outputTimes: nat
    var inputCount: nat
    const inputAddress: array<nat>

    ghost predicate Valid()
    {
      inputAddress.Length == MAX_INPUTS
    }

    ghost function Value(): Phases
      reads this, inputAddress
    {
      Phases(Counters(inputTimes, outputTimes), inputCount, inputAddress[..])
    }

    constructor ()
      ensures Valid() && Value() == Start() && fresh(inputAddress)
    {
      inputTimes, outputTimes, inputCount := 0, 0, 0;
      inputAddress := new nat[MAX_INPUTS](_ => 0);
    }

    /** The start of `cuda_memcpy_htod_1_svc`: where the data goes. */
    method MemcpyHtod(address: nat) returns (r: Attempt<nat>)
      requires Valid()
      modifies this, inputAddress
      ensures match Uploaded(old(Value()), address)
        case Ok((p, used)) => r == Ok(used) && Value() == p
        case _ => r == Undefined
    {
      if inputTimes == outputTimes {
        inputTimes := inputTimes + 1;
      }
      if inputCount >= MAX_INPUTS {
        return Undefined;
      }
      var used := address;
      if outputTimes == 0 {
        inputAddress[inputCount] := address;
      } else {
        used := inputAddress[inputCount];
      }
      inputCount := inputCount + 1;
      return Ok(used);
    }

    /** The start of `cuda_memcpy_dtoh_1_svc` */
    method MemcpyDtoh()
      requires Valid()
      modifies this
      ensures Value() == Downloaded(old(Value()))
    {
      if inputTimes != outputTimes {
        outputTimes := outputTimes + 1;
        inputCount := 0;
      }
    }
  }

  /** The server after a run. */
  function StateAfter(es: seq<Event>): (p: Attempt<Phases>)
    ensures p.Ok? ==> |p.value.addresses| == MAX_INPUTS
  {
    if es == [] then Ok(Start())
    else
      var p :- StateAfter(es[..|es| - 1]);
      match es[|es| - 1]
      case Upload(address) => (var (q, _) :- Uploaded(p, address); Ok(q))
      case Download => Ok(Downloaded(p))
  }

  /** Where the i-th event of the run, an upload, sends its data. */
  function AddressUsed(es: seq<Event>, i: nat): Attempt<nat>
    requires i < |es| && es[i].Upload?
  {
    var p :- StateAfter(es[..i]);
    var (_, used) :- Uploaded(p, es[i].address);
    Ok(used)
  }

  /* ---------- rounds, as the sequence of events shows them ---------- */

  /** The uploads at the end, since the last download. */
  function OpenUploads(es: seq<Event>): nat {
    if es == [] || es[|es| - 1].Download? then 0 else 1 + OpenUploads(es[..|es| - 1])
  }

  /** A download right after an upload closes a round. */
  function ClosedRounds(es: seq<Event>): nat {
    if |es| < 2 then 0
    else ClosedRounds(es[..|es| - 1]) + if es[|es| - 1].Download? && es[|es| - 2].Upload? then 1 else 0
  }

  /** The addresses of the uploads before the first round is closed. */
  function FirstRound(es: seq<Event>): seq<nat> {
    if es == [] then []
    else
      var before := es[..|es| - 1];
      if es[|es| - 1].Upload? && ClosedRounds(before) == 0
      then FirstRound(before) + [es[|es| - 1].address] else FirstRound(before)
  }

  /** The counters tell the rounds, and the table holds the first round's addresses. */
  predicate Tells(p: Phases, es: seq<Event>) {
    |p.addresses| == MAX_INPUTS &&
    p.counters == Counters(ClosedRounds(es) + (if OpenUploads(es) > 0 then 1 else 0), ClosedRounds(es)) &&
    p.inputCount == OpenUploads(es) <= MAX_INPUTS && |FirstRound(es)| <= MAX_INPUTS &&
    (ClosedRounds(es) == 0 ==> |FirstRound(es)| == OpenUploads(es)) &&
    forall k :: 0 <= k < MAX_INPUTS ==> p.addresses[k] == if k < |FirstRound(es)| then FirstRound(es)[k] else 0
  }

  lemma LastEvent(es: seq<Event>, e: Event)
    ensures var now := es + [e];
            now[..|now| - 1] == es && now[|now| - 1] == e &&
            OpenUploads(now) == (if e.Download? then 0 else 1 + OpenUploads(es)) &&
            ClosedRounds(now) == ClosedRounds(es) + (if e.Download? && OpenUploads(es) > 0 then 1 else 0) &&
            FirstRound(now) == (if e.Upload? &&
              ClosedRounds(es) == 0 then FirstRound(es) + [e.address] else FirstRound(es))
  {
    var now := es + [e];
    assert now[..|now| - 1] == es;
    if es != [] {
      assert now[|now| - 2] == es[|es| - 1];
    }
  }

  lemma UploadTold(p: Phases, es: seq<Event>, address: nat)
    requires Tells(p, es) && Uploaded(p, address).Ok?
    ensures Tells(Uploaded(p, address).value.0, es + [Upload(address)])
  {
    LastEvent(es, Upload(address));
  }

  lemma DownloadTold(p: Phases, es: seq<Event>)
    requires Tells(p, es)
    ensures Tells(Downloaded(p), es + [Download])
  {
    LastEvent(es, Download);
  }

  /**
   Over every run: the counters are the numbers of rounds begun and closed, so `output_times` <=
   `input_times` <= `output_times` + 1; `input_count` is the number of uploads in the open round, 0
   exactly between rounds; and the table keeps the first round's addresses.
   */
  lemma {:induction false} RunTold(es: seq<Event>)
    requires StateAfter(es).Ok?
    ensures Tells(StateAfter(es).value, es)
    decreases |es|
  {
    hide Tells, Uploaded, Downloaded;
    if es == [] {
      StartTold();
    } else {
      var before, e := es[..|es| - 1], es[|es| - 1];
      assert es == before + [e];
      RunTold(before);
      if e.Upload? {
        UploadTold(StateAfter(before).value, before, e.address);
      } else {
        DownloadTold(StateAfter(before).value, before);
      }
    }
  }

  lemma StartTold()
    ensures Tells(Start(), [])
  {
  }

  lemma {:induction false} PhaseInvariant(es: seq<Event>)
    requires StateAfter(es).Ok?
    ensures var p := StateAfter(es).value;
            p.counters.outputs <= p.counters.inputs <= p.counters.outputs + 1 &&
            (p.inputCount == 0 <==> p.counters.inputs == p.counters.outputs)
  {
    RunTold(es);
  }

  /** Where an upload goes: as it says in the first round, later to the address of the first round's upload. */
  lemma UploadAddress(es: seq<Event>, i: nat)
    requires i < |es| && es[i].Upload? && StateAfter(es[..i]).Ok?
    ensures var before := es[..i]; var k := OpenUploads(before);
            AddressUsed(es, i) ==
            if k >= 100 then Undefined
            else if ClosedRounds(before) == 0 then Ok(es[i].address)
            else if k < |FirstRound(before)| then Ok(FirstRound(before)[k])
            else Ok(0)
  {
    RunTold(es[..i]);
  }

  /** Once the first round is closed, its addresses do not change. */
  lemma {:induction false} FirstRoundKept(es: seq<Event>, i: nat, j: nat)
    requires i <= j <= |es| && ClosedRounds(es[..i]) > 0
    ensures ClosedRounds(es[..j]) > 0 && FirstRound(es[..j]) == FirstRound(es[..i])
    decreases j
  {
    if i < j {
      FirstRoundKept(es, i, j - 1);
      assert es[..j] == es[..j - 1] + [es[j - 1]];
      LastEvent(es[..j - 1], es[j - 1]);
    }
  }

  /** An upload of the first round is in the table of every later time. */
  lemma {:induction false} FirstRoundHas(es: seq<Event>, i: nat, j: nat)
    requires i < j <= |es| && es[i].Upload? && ClosedRounds(es[..i]) == 0 && StateAfter(es[..j]).Ok?
    ensures var k := OpenUploads(es[..i]); k < |FirstRound(es[..j])| && FirstRound(es[..j])[k] == es[i].address
    decreases j
  {
    assert es[..j] == es[..j - 1] + [es[j - 1]];
    assert es[..j][..|es[..j]| - 1] == es[..j - 1];
    LastEvent(es[..j - 1], es[j - 1]);
    if i + 1 < j {
      FirstRoundHas(es, i, j - 1);
    } else {
      RunTold(es[..i]);
    }
  }

  /**
   Address pinning: over every run, the k-th upload of any later round goes to the address of the
   k-th upload of the first round.
   */
  lemma UploadsPinned(es: seq<Event>, i: nat, j: nat)
    requires i < j < |es| && es[i].Upload? && es[j].Upload? && StateAfter(es).Ok?
    requires ClosedRounds(es[..i]) == 0 < ClosedRounds(es[..j]) && OpenUploads(es[..i]) == OpenUploads(es[..j])
    ensures AddressUsed(es, j) == AddressUsed(es, i) == Ok(es[i].address)
  {
    PrefixRuns(es, i);
    PrefixRuns(es, j);
    UploadAddress(es, i);
    UploadAddress(es, j);
    FirstRoundHas(es, i, j);
    RunTold(es[..j]);
  }

  lemma {:induction false} PrefixRuns(es: seq<Event>, i: nat)
    requires i <= |es| && StateAfter(es).Ok?
    ensures StateAfter(es[..i]).Ok?
    decreases |es|
  {
    if i < |es| {
      var before := es[..|es| - 1];
      PrefixRuns(before, i);
      assert before[..i] == es[..i];
    } else {
      assert es[..i] == es;
    }
  }

  lemma TellsOpen(p: Phases, es: seq<Event>)
    requires Tells(p, es)
    ensures p.inputCount == OpenUploads(es) <= MAX_INPUTS
  {
  }

  /** A run is undefined just when some round has more uploads than the table has room for. */
  lemma {:induction false} RunDefined(es: seq<Event>)
    ensures StateAfter(es).Ok? <==> forall i :: 0 <= i <= |es| ==> OpenUploads(es[..i]) <= 100
    decreases |es|
  {
    hide Tells, OpenUploads;
    if es == [] {
      assert es[..0] == [] && OpenUploads([]) == 0 by {
        StartTold();
        TellsOpen(Start(), []);
      }
    } else {
      var n := |es| - 1;
      var before, e := es[..n], es[n];
      assert es == before + [e] && es[..n + 1] == es;
      LastEvent(before, e);
      RunDefined(before);
      assert forall i :: 0 <= i <= n ==> before[..i] == es[..i];
      if StateAfter(before).Ok? {
        RunTold(before);
        TellsOpen(StateAfter(before).value, before);
      }
    }
  }

  /* ---------- client and server ---------- */

  /**
   Calls of the client: copies to and from the device, and copies to symbols, which the client does not
   count. `byRpc` tells whether a copy reaches one of the two handlers above: it does not if it goes another
   way (several threads, or shared memory and InfiniBand for page-locked memory), or if the symbol is not found.
   */
  datatype Call = CopyIn(byRpc: bool) | CopyOut(byRpc: bool) | CopyToSymbol(byRpc: bool)

  function OnClient(c: Counters, call: Call): Counters {
    match call
    case CopyIn(_) => CountUpload(c)
    case CopyOut(_) => CountDownload(c)
    case CopyToSymbol(_) => c
  }

  function OnServer(c: Counters, call: Call): Counters {
    match call
    case CopyIn(byRpc) => if byRpc then CountUpload(c) else c
    case CopyOut(byRpc) => if byRpc then CountDownload(c) else c
    case CopyToSymbol(byRpc) => if byRpc then CountUpload(c) else c
  }

  class TransferClient {
    var inputTimes: nat
    var outputTimes: nat

    constructor ()
      ensures inputTimes == outputTimes == 0
    {
      inputTimes, outputTimes := 0, 0;
    }

    /** The counting in `cudaMemcpy`. */
    method Memcpy(call: Call)
      modifies this
      ensures Counters(inputTimes, outputTimes) == OnClient(Counters(old(inputTimes), old(outputTimes)), call)
    {
      if call.CopyIn? {
        if inputTimes == outputTimes {
          inputTimes := inputTimes + 1;
        }
      } else if call.CopyOut? {
        if inputTimes != outputTimes {
          outputTimes := outputTimes + 1;
        }
      }
    }
  }

  /** Both sides' counters after the calls. */
  function Both(calls: seq<Call>): (Counters, Counters) {
    if calls == [] then (Counters(0, 0), Counters(0, 0))
    else
      var (client, server) := Both(calls[..|calls| - 1]);
      (OnClient(client, calls[|calls| - 1]), OnServer(server, calls[|calls| - 1]))
  }

  /** The client has copied to the device, and not back since. */
  predicate Uploading(calls: seq<Call>) {
    calls != [] &&
    match calls[|calls| - 1]
    case CopyIn(_) => true
    case CopyOut(_) => false
    case CopyToSymbol(_) => Uploading(calls[..|calls| - 1])
  }

  /** Both sides count the call, or neither needs to. */
  predicate CountedAlike(before: seq<Call>, call: Call) {
    match call
    case CopyIn(byRpc) => byRpc || Uploading(before)
    case CopyOut(byRpc) => byRpc || !Uploading(before)
    case CopyToSymbol(byRpc) => !byRpc || Uploading(before)
  }

  predicate AgreeAlways(calls: seq<Call>) {
    forall i :: 0 <= i <= |calls| ==> Both(calls[..i]).0 == Both(calls[..i]).1
  }

  predicate AllCountedAlike(calls: seq<Call>) {
    forall i :: 0 <= i < |calls| ==> CountedAlike(calls[..i], calls[i])
  }

  lemma {:induction false} UploadingTold(calls: seq<Call>)
    requires AgreeAlways(calls)
    ensures var c := Both(calls).0;
            c.inputs == c.outputs + if Uploading(calls) then 1 else 0
    decreases |calls|
  {
    if calls != [] {
      var before := calls[..|calls| - 1];
      assert forall i :: 0 <= i <= |before| ==> before[..i] == calls[..i];
      UploadingTold(before);
      assert calls[..|calls|] == calls && calls[..|before|] == before;
    }
  }

  /**
   The counters of client and server are equal after every call if and only if no call that begins or
   ends a round is counted on one side only.
   */
  lemma {:induction false} CountersAgree(calls: seq<Call>)
    ensures AgreeAlways(calls) <==> AllCountedAlike(calls)
    decreases |calls|
  {
    hide AgreeAlways, AllCountedAlike, CountedAlike;
    if calls == [] {
      NoCallsAgree();
    } else {
      CountersAgree(calls[..|calls| - 1]);
      AgreeStep(calls);
      CountedStep(calls);
    }
  }

  lemma NoCallsAgree()
    ensures AgreeAlways([]) && AllCountedAlike([])
  {
    var none: seq<Call> := [];
    assert none[..0] == [];
  }

  lemma CountedStep(calls: seq<Call>)
    requires calls != []
    ensures var before := calls[..|calls| - 1];
            AllCountedAlike(calls) <==> AllCountedAlike(before) && CountedAlike(before, calls[|calls| - 1])
  {
    hide CountedAlike;
    var before := calls[..|calls| - 1];
    assert forall i :: 0 <= i < |before| ==> before[..i] == calls[..i] && before[i] == calls[i];
  }

  lemma AgreeStep(calls: seq<Call>)
    requires calls != []
    ensures var before := calls[..|calls| - 1];
            AgreeAlways(calls) <==> AgreeAlways(before) && CountedAlike(before, calls[|calls| - 1])
  {
    var n := |calls| - 1;
    var before := calls[..n];
    assert calls[..n + 1] == calls && before[..n] == before;
    assert forall i :: 0 <= i <= n ==> before[..i] == calls[..i];
    if AgreeAlways(before) {
      UploadingTold(before);
    }
  }

  /** The calls as one side sees them: uploads and downloads, without the calls it does not count. */
  function SeenByClient(calls: seq<Call>): seq<Event> {
    if calls == [] then []
    else
      var before := SeenByClient(calls[..|calls| - 1]);
      match calls[|calls| - 1]
      case CopyIn(_) => before + [Upload(0)]
      case CopyOut(_) => before + [Download]
      case CopyToSymbol(_) => before
  }

  function SeenByServer(calls: seq<Call>): seq<Event> {
    if calls == [] then []
    else
      var before := SeenByServer(calls[..|calls| - 1]);
      match calls[|calls| - 1]
      case CopyIn(byRpc) => if byRpc then before + [Upload(0)] else before
      case CopyOut(byRpc) => if byRpc then before + [Download] else before
      case CopyToSymbol(byRpc) => if byRpc then before + [Upload(0)] else before
  }

  /** These are the rounds begun and closed in what is seen. */
  predicate Count(c: Counters, seen: seq<Event>) {
    c.outputs == ClosedRounds(seen) && c.inputs == c.outputs + (if OpenUploads(seen) > 0 then 1 else 0)
  }

  lemma Counted(c: Counters, seen: seq<Event>)
    requires Count(c, seen)
    ensures Count(CountUpload(c), seen + [Upload(0)]) && Count(CountDownload(c), seen + [Download])
  {
    LastEvent(seen, Upload(0));
    LastEvent(seen, Download);
    hide ClosedRounds, OpenUploads;
  }

  lemma NothingCounted()
    ensures Count(Counters(0, 0), [])
  {
  }

  /** Each side counts the rounds begun and closed in what it sees. */
  lemma {:induction false} CountersTold(calls: seq<Call>)
    ensures Count(Both(calls).0, SeenByClient(calls)) && Count(Both(calls).1, SeenByServer(calls))
    decreases |calls|
  {
    hide Count, CountUpload, CountDownload;
    if calls == [] {
      NothingCounted();
    } else {
      var before := calls[..|calls| - 1];
      CountersTold(before);
      Counted(Both(before).0, SeenByClient(before));
      Counted(Both(before).1, SeenByServer(before));
    }
  }

  lemma RpcsAgree(calls: seq<Call>)
    requires forall c :: c in calls ==> c.byRpc == !c.CopyToSymbol?
    ensures AgreeAlways(calls)
  {
    hide AgreeAlways, Both, Uploading;
    CountersAgree(calls);
    forall i | 0 <= i < |calls|
      ensures CountedAlike(calls[..i], calls[i])
    {
      assert calls[i] in calls;
    }
  }
}
