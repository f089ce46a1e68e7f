/**
 The whole pipeline as a transition system. One event is one device call, one database
 transaction, or one worker callback. Clients write records and lookups; one daemon thread
 empties the write ring into the store; another answers the lookups; workers inspect
 the answers.

 A step is defined only where the code's memory accesses are; where they are not, any state
 may follow. `Executions` shows exactly when that happens. A put that fails in an open
 transaction aborts the daemon, which closes both devices.
 */
module System {
  import opened Bytes
  import opened Codec
  import opened Rings
  import opened WorkQueues
  import opened Store
  import W = WritePersistence
  import R = ReadPersistence

  /** A job of the worker pool: the slot of its callback and the `iid` it waits for. */
  datatype Work = Work(slot: nat, iid: u32)

  /** The write thread of the daemon, between its calls. */
  datatype Writer = Idle | Putting(record: Accepted)

  /** The read thread of the daemon, between its calls. */
  datatype Reader = Ready | Looking(id: int, iid: u32) | Replying(frame: seq<byte>)

  /** The size of the daemon's receive buffer. */
  const RECV := HEADER + MAX_VALUE

  datatype State = State(wdev: Device, rdev: Device, store: Db, writer: Writer, reader: Reader,
                         pool: Pool<Work>, received: nat, found: nat)

  datatype Event =
    | ClientWrite(msg: seq<byte>)                       // write_test_write
    | ClientLookup(msg: seq<byte>, gotJob: bool)     // read_test_write
    | TestOpen                                          // read_test_open
    | WorkerStep(worker: nat)                           // wait_response
    | WriterTake                                        // poll and read of the write device
    | WriterPut(junk: Junk, put: PutCodes)              // storage_put
    | WriterRelease                                     // write_persistence_release
    | ReaderPeek                                        // poll and read of the read device
    | ReaderGet(junk: Junk, get: GetCodes)              // storage_get
    | ReaderReply(copies: R.Copies)                     // write to the read device
    | ReaderRelease                                     // read_persistence_release
  {
    /** `assert(s->txn)` fails (`StoragePut` in `Daemon`). */
    predicate Aborts() {
      WriterPut? && put.Aborts()
    }

    predicate ClosesWrite() {
      WriterRelease? || Aborts()
    }

    predicate ClosesRead() {
      ReaderRelease? || Aborts()
    }
  }

  /** The inputs a client may send, and the tests the code makes before it acts. */
  predicate Enabled(s: State, e: Event) {
    match e
    case ClientWrite(msg) => |msg| >= HEADER
    case ClientLookup(msg, _) => HEADER <= |msg| <= SLOT && 0 <= GetI32(msg, 24) <= MAX_VALUE
    case WorkerStep(w) => w < |s.pool.queues| && s.pool.queues[w] != []
    case WriterTake => s.writer.Idle? && s.wdev.Readable()
    case WriterPut(_, _) => s.writer.Putting?
    case ReaderPeek => s.reader.Ready? && s.rdev.Readable()
    case ReaderGet(_, _) => s.reader.Looking?
    case ReaderReply(_) => s.reader.Replying?
    case _ => true
  }

  /** `storage_get` finds a record of another `iid`: `assert(iid == out->iid)` fails. */
  predicate FindsOther(db: Db, iid: u32, c: GetCodes)
    requires iid in db ==> Decodable(db[iid], 0)
  {
    Fetch(db, iid, c).Some? && Fetch(db, iid, c).value.header.iid != iid
  }

  /** Every access the step makes is inside its object, the receive buffer included, and
      what is found in the store belongs there. */
  ghost predicate Safe(s: State, e: Event)
    requires Enabled(s, e)
  {
    && s.wdev.Shape() && s.rdev.Shape() && s.pool.Shape()
    && match e
       case WorkerStep(w) => s.pool.queues[w][0].slot < s.rdev.Size()
       case WriterTake =>
         && s.wdev.working
         && Sendable(s.wdev.msgs[s.wdev.first])
         && |HeadFrame(s.wdev)| <= RECV
         && Decodable(HeadFrame(s.wdev), 4)
       case WriterPut(_, _) => s.writer.record.Proper()
       case ReaderPeek =>
         && s.rdev.working
         && Sendable(s.rdev.msgs[s.rdev.first])
         && |HeadFrame(s.rdev)| <= RECV
         && Decodable(HeadFrame(s.rdev), 4)
       case ReaderGet(_, c) =>
         && -0x8000_0000 <= s.reader.id < 0x8000_0000
         && (s.reader.iid in s.store ==> Decodable(s.store[s.reader.iid], 0))
         && !FindsOther(s.store, s.reader.iid, c)
         && Answer(s.store, s.reader.iid, c).Proper()
       case ReaderReply(c) => R.ReplyOk(s.rdev, s.reader.frame, c)
       case _ => true
  }

  function Next(s: State, e: Event): State
    requires Enabled(s, e) && Safe(s, e)
  {
    match e
    case ClientWrite(msg) => s.(wdev := W.AddMessage(s.wdev, msg))
    case ClientLookup(msg, gotJob) =>
      if s.rdev.Full() then s else
      var s' := s.(rdev := R.AddMessage(s.rdev, msg));
      if !gotJob then s' else
      s'.(pool := AddWork(s.pool, NewWork(s, msg)), received := s.received + 1)
    case TestOpen => s.(received := 0, found := 0)
    case WorkerStep(w) =>
      var job := s.pool.queues[w][0];
      s.(rdev := R.Finish(s.rdev, job.slot), pool := TakeWork(s.pool, w),
         found := s.found + if IsFound(s, w) then 1 else 0)
    case WriterTake => s.(wdev := W.Read(s.wdev, true), writer := Putting(Decode(HeadFrame(s.wdev), 4)))
    case WriterPut(j, c) =>
      if c.Aborts() then Crash(s) else
      s.(store := AfterPut(s.store, s.writer.record, j, c), writer := Idle)
    case WriterRelease => s.(wdev := s.wdev.Release(), writer := Idle)
    case ReaderPeek =>
      var f := HeadFrame(s.rdev);
      s.(reader := Looking(GetI32(f, 0), ParseHeader(f, 4).iid))
    case ReaderGet(j, c) =>
      s.(reader := Replying(Frame(s.reader.id, Answer(s.store, s.reader.iid, c), j)))
    case ReaderReply(c) => s.(rdev := R.Reply(s.rdev, s.reader.frame, c), reader := Ready)
    case ReaderRelease => s.(rdev := s.rdev.Release(), reader := Ready)
  }

  /** The daemon dies in both its threads, and the system closes the devices for it. */
  function Crash(s: State): State {
    s.(wdev := s.wdev.Release(), rdev := s.rdev.Release(), writer := Idle, reader := Ready)
  }

  /** The job `read_test_write` submits for a message it could add. */
  function NewWork(s: State, msg: seq<byte>): Work
    requires s.rdev.Shape() && |msg| <= SLOT
  {
    Work(s.rdev.current, R.AddMessage(s.rdev, msg).cbs[s.rdev.current].iid)
  }

  /** The next job of worker `w` counts its message as found. */
  predicate IsFound(s: State, w: nat)
    requires w < |s.pool.queues| && s.pool.queues[w] != [] && s.pool.queues[w][0].slot < |s.rdev.cbs|
  {
    var job := s.pool.queues[w][0];
    R.Counts(s.rdev.cbs[job.slot], job.iid)
  }

  // ---------- what happened ----------

  /**
   A record of the run so far, read off its events; the code has nothing like it.
   - `writes`: the records accepted since the last release of the write device, of which
     the daemon took the first `taken`; `puts`: the codes of their puts; `committed`: all records
     put into the store in the run, of which `base` before that release.
   - `asks`: the requests accepted since the last release of the read device (at time
     `since`), as stored; `answers`: the answers delivered to the first of them; `gotAt`:
     the time of the latest get; `cleared`: the head's response was cleared by a failed reply.
   - `jobs`: all jobs submitted to the pool; `ran`: those each worker has run.
   */
  datatype History = History(
    writes: seq<Accepted>, taken: nat, puts: seq<PutCodes>, committed: seq<Accepted>, base: seq<Accepted>,
    asks: seq<seq<byte>>, answers: seq<R.Answer>, gotAt: nat, since: nat, cleared: bool,
    jobs: seq<Work>, ran: seq<seq<Work>>)

  datatype Config = Config(s: State, h: History)

  function Record(s: State, h: History, e: Event, now: nat): History
    requires Enabled(s, e) && Safe(s, e) && (e.WorkerStep? ==> e.worker < |h.ran|)
  {
    match e
    case ClientWrite(msg) => if s.wdev.Full() then h else h.(writes := h.writes + [W.Truncated(msg)])
    case ClientLookup(msg, gotJob) =>
      if s.rdev.Full() then h else
      var h' := h.(asks := h.asks + [R.SlotOf(msg, s.rdev.msgs[s.rdev.current])]);
      if gotJob then h'.(jobs := h.jobs + [NewWork(s, msg)]) else h'
    case TestOpen => h
    case WorkerStep(w) => h.(ran := h.ran[w := h.ran[w] + [s.pool.queues[w][0]]])
    case WriterTake => h.(taken := h.taken + 1)
    case WriterPut(_, c) =>
      if c.Aborts() then CloseRead(CloseWrite(h), now) else
      h.(puts := h.puts + [c], committed := h.committed + if c.Ok() then [s.writer.record] else [])
    case WriterRelease => CloseWrite(h)
    case ReaderPeek => h
    case ReaderGet(_, _) => h.(gotAt := now)
    case ReaderReply(c) =>
      if R.Delivers(s.rdev, c) then
        h.(answers := h.answers + [R.Answer(h.gotAt, Decode(s.reader.frame, 4), c.value)],
           cleared := false)
      else h.(cleared := h.cleared || (s.rdev.working && c.id))
    case ReaderRelease => CloseRead(h, now)
  }

  function CloseWrite(h: History): History {
    h.(writes := [], taken := 0, puts := [], base := h.committed)
  }

  function CloseRead(h: History, now: nat): History {
    h.(asks := [], answers := [], since := now + 1, cleared := false)
  }

  // ---------- runs ----------

  ghost predicate Init(c: Config) {
    && c.s.wdev.Shape() && c.s.rdev.Shape()
    && c.s.wdev.working && c.s.rdev.working
    && c.s.wdev.first == c.s.wdev.current == c.s.wdev.used == 0
    && c.s.rdev.first == c.s.rdev.current == c.s.rdev.used == 0
    && (forall k :: 0 <= k < c.s.rdev.Size() ==> c.s.rdev.cbs[k].response.header.len == 0)
    && WellFormed(c.s.store)
    && c.s.writer == Idle && c.s.reader == Ready
    && c.s.pool.Shape() && c.s.pool.current == 0
    && (forall w :: 0 <= w < |c.s.pool.queues| ==> c.s.pool.queues[w] == [])
    && c.s.received == c.s.found == 0
    && c.h == History([], 0, [], [], [], [], [], 0, 0, false,
                      [], seq(|c.s.pool.queues|, _ => []))
  }

  /** Event `e` at time `now` leads from `c` to `c'`; an unsafe one leads anywhere. */
  ghost predicate Step(c: Config, e: Event, now: nat, c': Config) {
    && Enabled(c.s, e)
    && (Safe(c.s, e) && (e.WorkerStep? ==> e.worker < |c.h.ran|) ==>
          c' == Config(Next(c.s, e), Record(c.s, c.h, e, now)))
  }

  ghost predicate IsExecution(cs: seq<Config>, es: seq<Event>) {
    && |cs| == |es| + 1
    && Init(cs[0])
    && forall n :: 0 <= n < |es| ==> Step(cs[n], es[n], n, cs[n + 1])
  }

  /** The frame of the record or request read next does not fit the receive buffer. */
  predicate Overruns(h: History, e: Event) {
    match e
    case WriterTake => h.taken < |h.writes| && |h.writes[h.taken].value| > 196
    case ReaderPeek =>
      && |h.answers| < |h.asks|
      && |h.asks[|h.answers|]| == SLOT
      && GetI32(h.asks[|h.answers|], 24) > 196
    case _ => false
  }

  /** An execution that never overruns the receive buffer. */
  ghost predicate IsRun(cs: seq<Config>, es: seq<Event>) {
    && IsExecution(cs, es)
    && forall n :: 0 <= n < |es| ==> !Overruns(cs[n].h, es[n])
  }
}
