/**
 The read-ahead stream: pusher threads fill a ring of pipes with blocks of a file while one reader pops bytes.
 Offsets are always multiples of the pipe capacity, so they are counted here in blocks.
 */
module ReadStream {
  import opened Common

  type Data = seq<int>

  // ------------------------------------------------------------------ the file in blocks

  function Upto(file: Data, cap: nat, b: nat): nat {
    if b * cap < |file| then b * cap else |file|
  }

  /** What reading one capacity's worth of bytes at block b returns. */
  function Block(file: Data, cap: nat, b: nat): Data {
    if Upto(file, cap, b) <= Upto(file, cap, b + 1) then file[Upto(file, cap, b)..Upto(file, cap, b + 1)] else []
  }

  lemma UptoGrows(file: Data, cap: nat, b: nat, c: nat)
    requires b <= c
    ensures Upto(file, cap, b) <= Upto(file, cap, c)
  {
    assert b * cap <= c * cap;
  }

  /** A block that is not full is the end of the file. */
  lemma BlockMeaning(file: Data, cap: nat, b: nat)
    requires cap > 0
    ensures Upto(file, cap, b) + |Block(file, cap, b)| == Upto(file, cap, b + 1) && |Block(file, cap, b)| <= cap
    ensures |Block(file, cap, b)| < cap ==> Upto(file, cap, b + 1) == |file|
    ensures Block(file, cap, b) == [] ==> Upto(file, cap, b) == |file|
    ensures file[..Upto(file, cap, b)] + Block(file, cap, b) == file[..Upto(file, cap, b + 1)]
  {
    UptoGrows(file, cap, b, b + 1);
    assert (b + 1) * cap == b * cap + cap;
  }

  lemma Ended(file: Data, cap: nat, b: nat, c: nat)
    requires Upto(file, cap, b) == |file| && b <= c
    ensures Upto(file, cap, c) == |file|
  {
    UptoGrows(file, cap, b, c);
  }

  // ------------------------------------------------------------------ the state

  /** size is negative after a failed read; block says which block was pushed last and is not part of the code's
      state (a pipe starts as if an earlier block had been read out of it). */
  datatype Pipe = Pipe(mem: Data, size: int, index: int, stop: bool, capacity: nat, block: int)

  datatype Pusher =
    | Looking(at: nat)
    | Waiting(at: nat)
    | Returned(at: nat, ret: int)
    | Leaving
    | Gone

  datatype Reader = Outside | Popping(want: nat, got: Data)

  /** turn counts the blocks the reader has finished; delivered and failed record what it returned. */
  datatype State = State(
    pipes: seq<Pipe>,
    pushers: seq<Pusher>,
    reader: Reader,
    pipeIndex: nat,
    stopAt: Option<nat>,
    stopped: bool,
    turn: nat,
    delivered: Data,
    failed: bool)

  datatype Step =
    | Look(i: nat)
    | Push(i: nat, error: Option<int>)
    | Compare(i: nat)
    | Leave(i: nat)
    | Call(want: nat)
    | Pop
    | Return
    | Stop
    | Kill(i: nat)

  function Destroy(p: Pipe): Pipe {
    Pipe([], 0, 0, true, 0, p.block)
  }

  predicate Init(s: State, cap: nat) {
    && |s.pipes| > 0 && |s.pushers| == |s.pipes|
    && (forall i :: 0 <= i < |s.pipes| ==> s.pipes[i].size == cap && s.pipes[i].index == cap && !s.pipes[i].stop
                                            && s.pipes[i].capacity == cap && s.pipes[i].block == i - |s.pipes|)
    && (forall i :: 0 <= i < |s.pushers| ==> s.pushers[i] == Looking(i))
    && s.reader == Outside && s.pipeIndex == 0 && s.stopAt == None && !s.stopped && s.turn == 0
    && s.delivered == [] && !s.failed
  }

  // ------------------------------------------------------------------ the pusher threads

  predicate LookStep(s: State, t: State, i: nat) {
    && i < |s.pushers| && s.pushers[i].Looking?
    && var at := s.pushers[i].at;
    t == s.(pushers := s.pushers[i :=
      if s.stopped || (s.stopAt.Some? && at >= s.stopAt.value) then Leaving else Waiting(at)])
  }

  predicate PushStep(file: Data, cap: nat, s: State, t: State, i: nat, error: Option<int>) {
    && i < |s.pushers| && i < |s.pipes| && s.pushers[i].Waiting? && (error.Some? ==> error.value < 0)
    && var p, at := s.pipes[i], s.pushers[i].at;
    && (p.index == p.size || p.stop)
    && if p.stop then t == s.(pushers := s.pushers[i := Returned(at, 0)])
       else
         var data := if error.Some? then [] else Block(file, cap, at);
         var ret := if error.Some? then error.value else |data|;
         t == s.(pipes := s.pipes[i := Pipe(data, ret, 0, false, p.capacity, at)],
                 pushers := s.pushers[i := Returned(at, ret)])
  }

  /** The thread compares what was read with the pipe's capacity as it is by then. */
  predicate CompareStep(s: State, t: State, i: nat) {
    && i < |s.pushers| && i < |s.pipes| && s.pushers[i].Returned?
    && var at, ret := s.pushers[i].at, s.pushers[i].ret;
    if ret != s.pipes[i].capacity then t == s.(pushers := s.pushers[i := Leaving], stopAt := Some(at))
    else t == s.(pushers := s.pushers[i := Looking(at + |s.pipes|)])
  }

  predicate LeaveStep(s: State, t: State, i: nat) {
    && i < |s.pushers| && i < |s.pipes| && s.pushers[i].Leaving?
    && t == s.(pushers := s.pushers[i := Gone], pipes := s.pipes[i := s.pipes[i].(stop := true)])
  }

  // ------------------------------------------------------------------ the reader

  predicate CallStep(s: State, t: State, want: nat) {
    s.reader == Outside && t == s.(reader := Popping(want, []))
  }

  function NextPipe(s: State): nat {
    if s.pipeIndex + 1 == |s.pipes| then 0 else s.pipeIndex + 1
  }

  /** One pass of the reader's loop: an error, the end, or some bytes of the current pipe. */
  predicate PopStep(s: State, t: State) {
    && s.reader.Popping? && !s.stopped && |s.reader.got| != s.reader.want && s.pipeIndex < |s.pipes|
    && var i, p, want, got := s.pipeIndex, s.pipes[s.pipeIndex], s.reader.want, s.reader.got;
    && (p.index != p.size || p.size <= 0 || p.stop)
    && if p.size < 0 then t == s.(pipes := s.pipes[i := Destroy(p)], reader := Outside, failed := true)
       else if p.size == 0 || p.index == p.size then
         t == s.(pipes := s.pipes[i := Destroy(p)], reader := Outside, delivered := s.delivered + got)
       else
         && 0 <= p.index <= |p.mem| && |got| <= want && p.index <= p.size <= |p.mem|
         && var k := if want - |got| < p.size - p.index then want - |got| else p.size - p.index;
         var q := p.(index := p.index + k);
         var more := got + p.mem[p.index..p.index + k];
         if q.index != q.size then t == s.(pipes := s.pipes[i := q], reader := Popping(want, more))
         else t == s.(pipes := s.pipes[i := if q.stop then Destroy(q) else q], reader := Popping(want, more),
                      pipeIndex := NextPipe(s), turn := s.turn + 1)
  }

  predicate ReturnStep(s: State, t: State) {
    && s.reader.Popping? && (s.stopped || |s.reader.got| == s.reader.want)
    && t == s.(reader := Outside, delivered := s.delivered + s.reader.got)
  }

  /** StopPushThreaded takes the reader's lock, so it runs between two calls; it then destroys the pipes. */
  predicate StopStep(s: State, t: State) {
    s.reader == Outside && t == s.(stopped := true)
  }

  predicate KillStep(s: State, t: State, i: nat) {
    s.stopped && i < |s.pipes| && t == s.(pipes := s.pipes[i := Destroy(s.pipes[i])])
  }

  predicate NextStep(file: Data, cap: nat, s: State, t: State, step: Step) {
    match step
    case Look(i) => LookStep(s, t, i)
    case Push(i, error) => PushStep(file, cap, s, t, i, error)
    case Compare(i) => CompareStep(s, t, i)
    case Leave(i) => LeaveStep(s, t, i)
    case Call(want) => CallStep(s, t, want)
    case Pop => PopStep(s, t)
    case Return => ReturnStep(s, t)
    case Stop => StopStep(s, t)
    case Kill(i) => KillStep(s, t, i)
  }

  ghost predicate Next(file: Data, cap: nat, s: State, t: State) {
    exists step :: NextStep(file, cap, s, t, step)
  }

  ghost predicate Run(file: Data, cap: nat, states: seq<State>) {
    && |states| > 0 && Init(states[0], cap)
    && forall i :: 0 <= i < |states| - 1 ==> Next(file, cap, states[i], states[i + 1])
  }

  // ------------------------------------------------------------------ the invariant

  /** The next block the reader will take from pipe i. */
  function Due(n: nat, pipeIndex: nat, turn: nat, i: nat): int {
    turn + if i >= pipeIndex then i - pipeIndex else i - pipeIndex + n
  }

  /** A pipe that holds the block the reader will take from it next. */
  predicate Loaded(file: Data, cap: nat, p: Pipe, due: int, current: bool) {
    && p.block == due && due >= 0
    && (p.size < 0 || (p.mem == Block(file, cap, due) && p.size == |p.mem|))
    && (if p.size > 0 then 0 <= p.index < p.size && (!current ==> p.index == 0) else p.index == 0)
  }

  predicate Drained(n: nat, p: Pipe, due: int) {
    p.block == due - n && p.index == p.size && p.size > 0
  }

  predicate Destroyed(n: nat, p: Pipe, due: int) {
    p.capacity == 0 && p.stop && p.size == 0 && p.index == 0 && (p.block == due || p.block == due - n)
  }

  predicate PipeOk(file: Data, cap: nat, n: nat, p: Pipe, due: int, current: bool) {
    if p.capacity == 0 then Destroyed(n, p, due)
    else p.capacity == cap && (Loaded(file, cap, p, due, current) || Drained(n, p, due))
  }

  /** A failed read is waiting in a pipe, at block b or before. */
  predicate ErrorBy(pipes: seq<Pipe>, b: int) {
    exists j :: 0 <= j < |pipes| && pipes[j].capacity > 0 && pipes[j].size < 0 && pipes[j].block <= b
  }

  /** Nothing more will come from a pipe after the block it was pushed last, except behind a failed read. */
  predicate NoMore(file: Data, cap: nat, pipes: seq<Pipe>, p: Pipe) {
    p.block + |pipes| >= 0 && (Upto(file, cap, p.block + |pipes|) == |file| || ErrorBy(pipes, p.block + |pipes|))
  }

  predicate PusherOk(file: Data, cap: nat, pipes: seq<Pipe>, p: Pipe, u: Pusher) {
    if p.capacity == 0 then u.Returned? ==> u.ret == 0
    else
      && (p.stop ==> u.Gone?)
      && match u
         case Looking(at) => at == p.block + |pipes| && p.size > 0
         case Waiting(at) => at == p.block + |pipes| && p.size > 0
         case Returned(at, ret) => at == p.block && (if p.size < 0 then ret == p.size else ret == |Block(file, cap, at)|)
         case Leaving => NoMore(file, cap, pipes, p)
         case Gone => NoMore(file, cap, pipes, p)
  }

  predicate Resting(p: Pipe, u: Pusher) {
    p.capacity == 0 || u.Leaving? || u.Gone?
  }

  /** The mark other threads stop at: some thread read less than a full block there, and pushes no more. */
  predicate StopOk(file: Data, cap: nat, pipes: seq<Pipe>, pushers: seq<Pusher>, stopAt: Option<nat>)
    requires |pipes| == |pushers|
  {
    stopAt.Some? ==>
      && (exists j :: 0 <= j < |pipes| && pipes[j].block == stopAt.value && Resting(pipes[j], pushers[j]))
      && (Upto(file, cap, stopAt.value + 1) == |file| || ErrorBy(pipes, stopAt.value))
  }

  predicate PipesOk(file: Data, cap: nat, pipes: seq<Pipe>, at: nat, turn: nat) {
    forall i :: 0 <= i < |pipes| ==> PipeOk(file, cap, |pipes|, pipes[i], Due(|pipes|, at, turn, i), i == at)
  }

  predicate PushersOk(file: Data, cap: nat, pipes: seq<Pipe>, pushers: seq<Pusher>)
    requires |pipes| == |pushers|
  {
    forall i :: 0 <= i < |pipes| ==> PusherOk(file, cap, pipes, pipes[i], pushers[i])
  }

  /** A pipe is destroyed only when nothing more comes from it. */
  predicate DeadOk(file: Data, cap: nat, pipes: seq<Pipe>, at: nat, turn: nat) {
    forall i :: 0 <= i < |pipes| && pipes[i].capacity == 0 ==>
      var due := Due(|pipes|, at, turn, i); due >= 0 && (Upto(file, cap, due) == |file| || ErrorBy(pipes, due))
  }

  function Got(r: Reader): Data {
    if r.Popping? then r.got else []
  }

  /** How far the reader is in the current pipe. */
  function Offset(pipes: seq<Pipe>, at: nat, turn: nat): int
    requires at < |pipes|
  {
    if pipes[at].block == turn && pipes[at].size > 0 then pipes[at].index else 0
  }

  predicate Position(file: Data, cap: nat, pipes: seq<Pipe>, at: nat, turn: nat, total: Data)
    requires at < |pipes|
  {
    var n := Upto(file, cap, turn) + Offset(pipes, at, turn);
    0 <= n <= |file| && total == file[..n]
  }

  predicate Live(file: Data, cap: nat, s: State)
    requires |s.pipes| == |s.pushers| && s.pipeIndex < |s.pipes|
  {
    && PipesOk(file, cap, s.pipes, s.pipeIndex, s.turn)
    && PushersOk(file, cap, s.pipes, s.pushers)
    && DeadOk(file, cap, s.pipes, s.pipeIndex, s.turn)
    && StopOk(file, cap, s.pipes, s.pushers, s.stopAt)
    && Position(file, cap, s.pipes, s.pipeIndex, s.turn, s.delivered + Got(s.reader))
  }

  predicate Inv(file: Data, cap: nat, s: State) {
    && |s.pipes| == |s.pushers| && s.pipeIndex < |s.pipes| && (s.reader.Popping? ==> |s.reader.got| <= s.reader.want)
    && s.delivered + Got(s.reader) <= file
    && if s.stopped then Got(s.reader) == []
       else if s.failed then Got(s.reader) == [] && s.pipes[s.pipeIndex] == Destroy(s.pipes[s.pipeIndex])
       else Live(file, cap, s)
  }

  lemma InitOk(file: Data, cap: nat, s: State)
    requires cap > 0 && Init(s, cap)
    ensures Inv(file, cap, s)
  {
  }

  // ------------------------------------------------------------------ changing one pipe and its pusher

  /** A failed read stays where it is. */
  predicate KeepsError(p: Pipe, q: Pipe) {
    p.capacity > 0 && p.size < 0 ==> q.capacity > 0 && q.size < 0 && q.block == p.block
  }

  lemma ErrorStays(pipes: seq<Pipe>, i: nat, q: Pipe, b: int)
    requires i < |pipes| && KeepsError(pipes[i], q) && ErrorBy(pipes, b)
    ensures ErrorBy(pipes[i := q], b)
  {
    var j :| 0 <= j < |pipes| && pipes[j].capacity > 0 && pipes[j].size < 0 && pipes[j].block <= b;
    var pipes' := pipes[i := q];
    assert pipes'[j].capacity > 0 && pipes'[j].size < 0 && pipes'[j].block <= b;
  }

  lemma PushersSwap(file: Data, cap: nat, pipes: seq<Pipe>, pushers: seq<Pusher>, i: nat, q: Pipe, u: Pusher)
    requires |pipes| == |pushers| && i < |pipes| && PushersOk(file, cap, pipes, pushers) && KeepsError(pipes[i], q)
    requires PusherOk(file, cap, pipes[i := q], q, u)
    ensures PushersOk(file, cap, pipes[i := q], pushers[i := u])
  {
    var pipes' := pipes[i := q];
    forall j | 0 <= j < |pipes| && j != i ensures PusherOk(file, cap, pipes', pipes[j], pushers[j]) {
      assert PusherOk(file, cap, pipes, pipes[j], pushers[j]);
      if ErrorBy(pipes, pipes[j].block + |pipes|) { ErrorStays(pipes, i, q, pipes[j].block + |pipes|); }
    }
  }

  lemma StopSwap(file: Data, cap: nat, pipes: seq<Pipe>, pushers: seq<Pusher>, stopAt: Option<nat>, i: nat, q: Pipe,
                 u: Pusher)
    requires |pipes| == |pushers| && i < |pipes| && StopOk(file, cap, pipes, pushers, stopAt) && KeepsError(pipes[i], q)
    requires Resting(pipes[i], pushers[i]) ==> q.block == pipes[i].block && Resting(q, u)
    ensures StopOk(file, cap, pipes[i := q], pushers[i := u], stopAt)
  {
    if stopAt.Some? {
      var j :| 0 <= j < |pipes| && pipes[j].block == stopAt.value && Resting(pipes[j], pushers[j]);
      var pipes', pushers' := pipes[i := q], pushers[i := u];
      assert pipes'[j].block == stopAt.value && Resting(pipes'[j], pushers'[j]);
      if ErrorBy(pipes, stopAt.value) { ErrorStays(pipes, i, q, stopAt.value); }
    }
  }

  lemma DeadSwap(file: Data, cap: nat, pipes: seq<Pipe>, at: nat, turn: nat, i: nat, q: Pipe)
    requires i < |pipes| && DeadOk(file, cap, pipes, at, turn) && KeepsError(pipes[i], q)
    requires q.capacity == 0 ==> var due := Due(|pipes|, at, turn, i); due >= 0 && Upto(file, cap, due) == |file|
    ensures DeadOk(file, cap, pipes[i := q], at, turn)
  {
    forall j | 0 <= j < |pipes| && j != i && pipes[j].capacity == 0
      ensures var due := Due(|pipes|, at, turn, j); due >= 0 && (Upto(file, cap, due) == |file| || ErrorBy(pipes[i := q], due))
    {
      var due := Due(|pipes|, at, turn, j);
      if ErrorBy(pipes, due) { ErrorStays(pipes, i, q, due); }
    }
  }

  /** Different pipes are due at different blocks, less than one round apart. */
  lemma DueApart(n: nat, at: nat, turn: nat, i: nat, j: nat)
    requires at < n && i < n && j < n
    ensures turn <= Due(n, at, turn, i) < turn + n
    ensures Due(n, at, turn, i) == Due(n, at, turn, j) ==> i == j
    ensures Due(n, at, turn, i) == turn <==> i == at
  {
  }

  /** No pipe holds the block that another one is to be filled with. */
  lemma NotAhead(n: nat, at: nat, turn: nat, i: nat, j: nat, b: int, c: int)
    requires at < n && i < n && j < n
    requires b == Due(n, at, turn, i) || b == Due(n, at, turn, i) - n
    requires c == Due(n, at, turn, j) || c == Due(n, at, turn, j) - n
    requires i == j ==> b == c
    ensures c != b + n
  {
    DueApart(n, at, turn, i, j);
    DueApart(n, at, turn, j, i);
  }

  lemma BlockDue(file: Data, cap: nat, s: State, i: nat)
    requires Inv(file, cap, s) && !s.stopped && !s.failed && i < |s.pipes|
    ensures var due := Due(|s.pipes|, s.pipeIndex, s.turn, i); s.pipes[i].block == due || s.pipes[i].block == due - |s.pipes|
  {
    assert PipeOk(file, cap, |s.pipes|, s.pipes[i], Due(|s.pipes|, s.pipeIndex, s.turn, i), i == s.pipeIndex);
  }

  // ------------------------------------------------------------------ the pusher threads keep it

  lemma LookKeeps(file: Data, cap: nat, s: State, t: State, i: nat)
    requires cap > 0 && Inv(file, cap, s) && !s.stopped && !s.failed && LookStep(s, t, i)
    ensures Live(file, cap, t)
  {
    var p, u := s.pipes[i], t.pushers[i];
    assert s.pipes[i := p] == s.pipes;
    if p.capacity > 0 && u.Leaving? {
      assert PusherOk(file, cap, s.pipes, p, s.pushers[i]);
      LookStops(file, cap, s.pipes, s.pushers, s.pipeIndex, s.turn, s.stopAt.value, i);
    }
    PushersSwap(file, cap, s.pipes, s.pushers, i, p, u);
    StopSwap(file, cap, s.pipes, s.pushers, s.stopAt, i, p, u);
  }

  lemma PastMark(file: Data, cap: nat, pipes: seq<Pipe>, b: nat, at: nat)
    requires b < at && (Upto(file, cap, b + 1) == |file| || ErrorBy(pipes, b))
    ensures Upto(file, cap, at) == |file| || ErrorBy(pipes, at)
  {
    if ErrorBy(pipes, b) {
      var j :| 0 <= j < |pipes| && pipes[j].capacity > 0 && pipes[j].size < 0 && pipes[j].block <= b;
      assert pipes[j].block <= at;
    } else {
      Ended(file, cap, b + 1, at);
    }
  }

  predicate AllDue(pipes: seq<Pipe>, at: nat, turn: nat) {
    forall i :: 0 <= i < |pipes| ==>
      var due := Due(|pipes|, at, turn, i); pipes[i].block == due || pipes[i].block == due - |pipes|
  }

  /** A thread that stops at the mark has nothing left to push. */
  lemma LookStops(file: Data, cap: nat, pipes: seq<Pipe>, pushers: seq<Pusher>, index: nat, turn: nat, b: nat, i: nat)
    requires |pipes| == |pushers| && index < |pipes| && i < |pipes| && AllDue(pipes, index, turn)
    requires StopOk(file, cap, pipes, pushers, Some(b)) && b <= pipes[i].block + |pipes|
    ensures NoMore(file, cap, pipes, pipes[i])
  {
    var n := |pipes|;
    var j :| 0 <= j < n && pipes[j].block == b && Resting(pipes[j], pushers[j]);
    NotAhead(n, index, turn, i, j, pipes[i].block, pipes[j].block);
    PastMark(file, cap, pipes, b, pipes[i].block + n);
  }

  /** A push fills a drained pipe with the block the reader will take from it next. */
  lemma PushLoads(file: Data, cap: nat, s: State, t: State, i: nat, error: Option<int>)
    requires cap > 0 && Inv(file, cap, s) && !s.stopped && !s.failed && PushStep(file, cap, s, t, i, error)
    requires !s.pipes[i].stop
    ensures s.pipes[i].capacity == cap && s.pipes[i].size > 0 && s.pushers[i].Waiting? && t.pipes[i].capacity == cap
    ensures var due := Due(|s.pipes|, s.pipeIndex, s.turn, i);
      s.pipes[i].block == due - |s.pipes| && Loaded(file, cap, t.pipes[i], due, i == s.pipeIndex)
    ensures PusherOk(file, cap, t.pipes, t.pipes[i], t.pushers[i]) && t.pipes[i].index == 0
  {
    var p := s.pipes[i];
    assert PipeOk(file, cap, |s.pipes|, p, Due(|s.pipes|, s.pipeIndex, s.turn, i), i == s.pipeIndex);
    assert PusherOk(file, cap, s.pipes, p, s.pushers[i]);
  }

  lemma PushKeeps(file: Data, cap: nat, s: State, t: State, i: nat, error: Option<int>)
    requires cap > 0 && Inv(file, cap, s) && !s.stopped && !s.failed && PushStep(file, cap, s, t, i, error)
    ensures Live(file, cap, t)
  {
    var p, q, u := s.pipes[i], t.pipes[i], t.pushers[i];
    if p.stop {
      assert PusherOk(file, cap, s.pipes, p, s.pushers[i]);
      assert t.pipes == s.pipes[i := p] == s.pipes;
      PushersSwap(file, cap, s.pipes, s.pushers, i, p, u);
      StopSwap(file, cap, s.pipes, s.pushers, s.stopAt, i, p, u);
    } else {
      PushLoads(file, cap, s, t, i, error);
      assert t.pipes == s.pipes[i := q];
      PushersSwap(file, cap, s.pipes, s.pushers, i, q, u);
      StopSwap(file, cap, s.pipes, s.pushers, s.stopAt, i, q, u);
      DeadSwap(file, cap, s.pipes, s.pipeIndex, s.turn, i, q);
      DueApart(|s.pipes|, s.pipeIndex, s.turn, i, s.pipeIndex);
      assert Offset(t.pipes, s.pipeIndex, s.turn) == Offset(s.pipes, s.pipeIndex, s.turn);
    }
  }

  lemma CompareKeeps(file: Data, cap: nat, s: State, t: State, i: nat)
    requires cap > 0 && Inv(file, cap, s) && !s.stopped && !s.failed && CompareStep(s, t, i)
    ensures Live(file, cap, t)
  {
    var p, u := s.pipes[i], t.pushers[i];
    assert s.pipes[i := p] == s.pipes;
    assert PipeOk(file, cap, |s.pipes|, p, Due(|s.pipes|, s.pipeIndex, s.turn, i), i == s.pipeIndex);
    assert PusherOk(file, cap, s.pipes, p, s.pushers[i]);
    if u.Leaving? {
      BlockMeaning(file, cap, p.block);
      if p.size < 0 {
        assert ErrorBy(s.pipes, p.block);
        assert ErrorBy(s.pipes, p.block + |s.pipes|);
      } else {
        Ended(file, cap, p.block + 1, p.block + |s.pipes|);
      }
      assert t.pipes[i].block == t.stopAt.value && Resting(t.pipes[i], t.pushers[i]);
    } else {
      StopSwap(file, cap, s.pipes, s.pushers, s.stopAt, i, p, u);
    }
    PushersSwap(file, cap, s.pipes, s.pushers, i, p, u);
  }

  lemma GonePushers(file: Data, cap: nat, pipes: seq<Pipe>, pushers: seq<Pusher>, i: nat, stopAt: Option<nat>)
    requires |pipes| == |pushers| && i < |pipes| && PushersOk(file, cap, pipes, pushers) && pushers[i].Leaving?
    requires StopOk(file, cap, pipes, pushers, stopAt)
    ensures var pipes', pushers' := pipes[i := pipes[i].(stop := true)], pushers[i := Gone];
      PushersOk(file, cap, pipes', pushers') && StopOk(file, cap, pipes', pushers', stopAt)
  {
    var p, q := pipes[i], pipes[i].(stop := true);
    assert PusherOk(file, cap, pipes, p, pushers[i]);
    if ErrorBy(pipes, p.block + |pipes|) { ErrorStays(pipes, i, q, p.block + |pipes|); }
    PushersSwap(file, cap, pipes, pushers, i, q, Gone);
    StopSwap(file, cap, pipes, pushers, stopAt, i, q, Gone);
  }

  lemma LeaveKeeps(file: Data, cap: nat, s: State, t: State, i: nat)
    requires cap > 0 && Inv(file, cap, s) && !s.stopped && !s.failed && LeaveStep(s, t, i)
    ensures Live(file, cap, t)
  {
    var p, q := s.pipes[i], s.pipes[i].(stop := true);
    assert PipeOk(file, cap, |s.pipes|, p, Due(|s.pipes|, s.pipeIndex, s.turn, i), i == s.pipeIndex);
    GonePushers(file, cap, s.pipes, s.pushers, i, s.stopAt);
    if p.capacity > 0 {
      DeadSwap(file, cap, s.pipes, s.pipeIndex, s.turn, i, q);
    } else {
      assert q == p && t.pipes == s.pipes;
    }
  }

  // ------------------------------------------------------------------ the reader keeps it

  /** When the current pipe has nothing for the reader and never will, the file is finished. */
  lemma NothingLeft(file: Data, cap: nat, s: State)
    requires cap > 0 && Inv(file, cap, s) && !s.stopped && !s.failed
    requires var p := s.pipes[s.pipeIndex]; p.size == 0 || (p.index == p.size && p.stop)
    ensures Upto(file, cap, s.turn) == |file| && s.delivered + Got(s.reader) == file
  {
    var i, p := s.pipeIndex, s.pipes[s.pipeIndex];
    DueApart(|s.pipes|, i, s.turn, i, i);
    assert PipeOk(file, cap, |s.pipes|, p, s.turn, true);
    assert PusherOk(file, cap, s.pipes, p, s.pushers[i]);
    BlockMeaning(file, cap, s.turn);
    if p.capacity == 0 || p.block != s.turn {
      if ErrorBy(s.pipes, s.turn) { ErrorIsCurrent(file, cap, s); }
    }
    assert file[..|file|] == file;
  }

  /** A failed read at the reader's block or before is in the current pipe. */
  lemma ErrorIsCurrent(file: Data, cap: nat, s: State)
    requires cap > 0 && Inv(file, cap, s) && !s.stopped && !s.failed && ErrorBy(s.pipes, s.turn)
    ensures s.pipes[s.pipeIndex].size < 0
  {
    var j :| 0 <= j < |s.pipes| && s.pipes[j].capacity > 0 && s.pipes[j].size < 0 && s.pipes[j].block <= s.turn;
    assert PipeOk(file, cap, |s.pipes|, s.pipes[j], Due(|s.pipes|, s.pipeIndex, s.turn, j), j == s.pipeIndex);
    DueApart(|s.pipes|, s.pipeIndex, s.turn, j, j);
  }

  lemma PopEndKeeps(file: Data, cap: nat, s: State, t: State)
    requires cap > 0 && Inv(file, cap, s) && !s.stopped && !s.failed && PopStep(s, t)
    requires var p := s.pipes[s.pipeIndex]; p.size >= 0 && (p.size == 0 || p.index == p.size)
    ensures Live(file, cap, t) && t.delivered == file
  {
    var i, p, q := s.pipeIndex, s.pipes[s.pipeIndex], t.pipes[s.pipeIndex];
    NothingLeft(file, cap, s);
    DueApart(|s.pipes|, i, s.turn, i, i);
    BlockDue(file, cap, s, i);
    assert PipeOk(file, cap, |s.pipes|, p, s.turn, true);
    assert PusherOk(file, cap, s.pipes, p, s.pushers[i]);
    assert t.pipes == s.pipes[i := q] && s.pushers[i := s.pushers[i]] == s.pushers;
    PushersSwap(file, cap, s.pipes, s.pushers, i, q, s.pushers[i]);
    StopSwap(file, cap, s.pipes, s.pushers, s.stopAt, i, q, s.pushers[i]);
    DeadSwap(file, cap, s.pipes, i, s.turn, i, q);
  }

  /** Taking some bytes, but not the last, of the current pipe. */
  lemma PopSomeKeeps(file: Data, cap: nat, s: State, t: State)
    requires cap > 0 && Inv(file, cap, s) && !s.stopped && !s.failed && PopStep(s, t)
    requires s.pipes[s.pipeIndex].size > 0 && s.pipes[s.pipeIndex].index != s.pipes[s.pipeIndex].size && t.turn == s.turn
    ensures Live(file, cap, t)
  {
    var i, p, q := s.pipeIndex, s.pipes[s.pipeIndex], t.pipes[s.pipeIndex];
    DueApart(|s.pipes|, i, s.turn, i, i);
    assert PipeOk(file, cap, |s.pipes|, p, s.turn, true);
    assert PusherOk(file, cap, s.pipes, p, s.pushers[i]);
    assert t.pipes == s.pipes[i := q] && s.pushers[i := s.pushers[i]] == s.pushers;
    NoMoreKept(file, cap, s.pipes, i, q);
    PushersSwap(file, cap, s.pipes, s.pushers, i, q, s.pushers[i]);
    StopSwap(file, cap, s.pipes, s.pushers, s.stopAt, i, q, s.pushers[i]);
    DeadSwap(file, cap, s.pipes, i, s.turn, i, q);
    PopSomePosition(file, cap, s, t);
  }

  lemma PopSomePosition(file: Data, cap: nat, s: State, t: State)
    requires cap > 0 && s.pipeIndex < |s.pipes| && t.pipeIndex < |t.pipes| && !s.stopped && PopStep(s, t)
    requires s.pipes[s.pipeIndex].size > 0 && s.pipes[s.pipeIndex].index != s.pipes[s.pipeIndex].size && t.turn == s.turn
    requires Loaded(file, cap, s.pipes[s.pipeIndex], s.turn, true)
    requires Position(file, cap, s.pipes, s.pipeIndex, s.turn, s.delivered + s.reader.got)
    ensures Position(file, cap, t.pipes, t.pipeIndex, t.turn, t.delivered + t.reader.got)
  {
    var p, q := s.pipes[s.pipeIndex], t.pipes[s.pipeIndex];
    TakeMore(file, cap, s.turn, s.delivered + s.reader.got, p.index, q.index);
    assert t.delivered + t.reader.got == s.delivered + s.reader.got + p.mem[p.index..q.index];
  }

  lemma NoMoreKept(file: Data, cap: nat, pipes: seq<Pipe>, i: nat, q: Pipe)
    requires i < |pipes| && pipes[i].size > 0 && q.block == pipes[i].block
    ensures NoMore(file, cap, pipes, pipes[i]) ==> NoMore(file, cap, pipes[i := q], q)
  {
    if NoMore(file, cap, pipes, pipes[i]) && ErrorBy(pipes, q.block + |pipes|) {
      ErrorStays(pipes, i, q, q.block + |pipes|);
    }
  }

  lemma TakeMore(file: Data, cap: nat, turn: nat, total: Data, a: int, b: int)
    requires cap > 0 && 0 <= a <= b <= |Block(file, cap, turn)|
    requires Upto(file, cap, turn) + a <= |file| && total == file[..Upto(file, cap, turn) + a]
    ensures Upto(file, cap, turn) + b <= |file|
    ensures total + Block(file, cap, turn)[a..b] == file[..Upto(file, cap, turn) + b]
  {
    BlockMeaning(file, cap, turn);
  }

  lemma DueAdvances(n: nat, at: nat, turn: nat, i: nat)
    requires at < n && i < n
    ensures var next := if at + 1 == n then 0 else at + 1;
      Due(n, next, turn + 1, i) == if i == at then turn + n else Due(n, at, turn, i)
  {
  }

  /** Taking the last bytes of the current pipe and going on to the next one. */
  lemma PopLastKeeps(file: Data, cap: nat, s: State, t: State)
    requires cap > 0 && Inv(file, cap, s) && !s.stopped && !s.failed && PopStep(s, t)
    requires s.pipes[s.pipeIndex].size > 0 && s.pipes[s.pipeIndex].index != s.pipes[s.pipeIndex].size && t.turn != s.turn
    ensures Live(file, cap, t)
  {
    var i, p := s.pipeIndex, s.pipes[s.pipeIndex];
    DueApart(|s.pipes|, i, s.turn, i, i);
    assert PipeOk(file, cap, |s.pipes|, p, s.turn, true);
    assert PusherOk(file, cap, s.pipes, p, s.pushers[i]);
    PopLastMoves(s, t);
    LeavePipe(file, cap, s.pipes, i, s.turn, s.pushers[i]);
    LeavePushers(file, cap, s.pipes, s.pushers, i, s.stopAt);
    PopLastPosition(file, cap, s, t);
  }

  lemma PopLastPosition(file: Data, cap: nat, s: State, t: State)
    requires cap > 0 && s.pipeIndex < |s.pipes| && t.pipeIndex < |t.pipes| && !s.stopped && PopStep(s, t)
    requires s.pipes[s.pipeIndex].size > 0 && s.pipes[s.pipeIndex].index != s.pipes[s.pipeIndex].size && t.turn != s.turn
    requires Loaded(file, cap, s.pipes[s.pipeIndex], s.turn, true) && Offset(t.pipes, t.pipeIndex, t.turn) == 0
    requires Position(file, cap, s.pipes, s.pipeIndex, s.turn, s.delivered + s.reader.got)
    ensures Position(file, cap, t.pipes, t.pipeIndex, t.turn, t.delivered + t.reader.got)
  {
    var p := s.pipes[s.pipeIndex];
    TakeMore(file, cap, s.turn, s.delivered + s.reader.got, p.index, p.size);
    BlockMeaning(file, cap, s.turn);
    assert t.delivered + t.reader.got == s.delivered + s.reader.got + p.mem[p.index..p.size];
  }

  lemma PipesAdvance(file: Data, cap: nat, pipes: seq<Pipe>, at: nat, turn: nat, q: Pipe)
    requires at < |pipes| && PipesOk(file, cap, pipes, at, turn)
    requires var n := |pipes|;
      (q.capacity == 0 && Destroyed(n, q, turn + n)) || (q.capacity == cap && cap > 0 && Drained(n, q, turn + n))
    ensures var next := if at + 1 == |pipes| then 0 else at + 1;
      PipesOk(file, cap, pipes[at := q], next, turn + 1) && Offset(pipes[at := q], next, turn + 1) == 0
  {
    var n, pipes', next := |pipes|, pipes[at := q], if at + 1 == |pipes| then 0 else at + 1;
    forall j | 0 <= j < n
      ensures PipeOk(file, cap, n, pipes'[j], Due(n, next, turn + 1, j), j == next)
      ensures j == next && pipes'[j].block == turn + 1 && pipes'[j].size > 0 ==> pipes'[j].index == 0
    {
      DueAdvances(n, at, turn, j);
      DueApart(n, next, turn + 1, j, j);
      assert PipeOk(file, cap, n, pipes[j], Due(n, at, turn, j), j == at);
    }
  }

  lemma DeadAdvance(file: Data, cap: nat, pipes: seq<Pipe>, at: nat, turn: nat, q: Pipe)
    requires at < |pipes| && DeadOk(file, cap, pipes, at, turn) && KeepsError(pipes[at], q)
    requires q.capacity == 0 ==> Upto(file, cap, turn + |pipes|) == |file| || ErrorBy(pipes[at := q], turn + |pipes|)
    ensures DeadOk(file, cap, pipes[at := q], if at + 1 == |pipes| then 0 else at + 1, turn + 1)
  {
    var n, pipes', next := |pipes|, pipes[at := q], if at + 1 == |pipes| then 0 else at + 1;
    forall j | 0 <= j < n && pipes'[j].capacity == 0
      ensures var due := Due(n, next, turn + 1, j); due >= 0 && (Upto(file, cap, due) == |file| || ErrorBy(pipes', due))
    {
      DueAdvances(n, at, turn, j);
      var due := Due(n, next, turn + 1, j);
      if j != at && ErrorBy(pipes, due) { ErrorStays(pipes, at, q, due); }
    }
  }

  /** Where the reader goes when it empties a pipe. */
  lemma PopLastMoves(s: State, t: State)
    requires s.pipeIndex < |s.pipes| && PopStep(s, t) && t.turn != s.turn
    ensures t.turn == s.turn + 1 && t.pipeIndex == if s.pipeIndex + 1 == |s.pipes| then 0 else s.pipeIndex + 1
    ensures t.pipes == s.pipes[s.pipeIndex := Emptied(s.pipes[s.pipeIndex])]
    ensures t.pushers == s.pushers && t.stopAt == s.stopAt
  {
  }

  lemma LeavePipe(file: Data, cap: nat, pipes: seq<Pipe>, i: nat, turn: nat, u: Pusher)
    requires cap > 0 && i < |pipes| && PipesOk(file, cap, pipes, i, turn) && DeadOk(file, cap, pipes, i, turn)
    requires Loaded(file, cap, pipes[i], turn, true) && pipes[i].capacity == cap && pipes[i].size > 0
    requires PusherOk(file, cap, pipes, pipes[i], u)
    ensures var next, pipes' := if i + 1 == |pipes| then 0 else i + 1, pipes[i := Emptied(pipes[i])];
      && PipesOk(file, cap, pipes', next, turn + 1) && DeadOk(file, cap, pipes', next, turn + 1)
      && Offset(pipes', next, turn + 1) == 0
  {
    var q := Emptied(pipes[i]);
    NoMoreKept(file, cap, pipes, i, q);
    PipesAdvance(file, cap, pipes, i, turn, q);
    DeadAdvance(file, cap, pipes, i, turn, q);
  }

  lemma LeavePushers(file: Data, cap: nat, pipes: seq<Pipe>, pushers: seq<Pusher>, i: nat, stopAt: Option<nat>)
    requires |pipes| == |pushers| && i < |pipes| && PushersOk(file, cap, pipes, pushers)
    requires StopOk(file, cap, pipes, pushers, stopAt) && pipes[i].capacity > 0 && pipes[i].size > 0
    ensures var pipes' := pipes[i := Emptied(pipes[i])];
      PushersOk(file, cap, pipes', pushers) && StopOk(file, cap, pipes', pushers, stopAt)
  {
    var q := Emptied(pipes[i]);
    assert pushers[i := pushers[i]] == pushers;
    assert PusherOk(file, cap, pipes, pipes[i], pushers[i]);
    NoMoreKept(file, cap, pipes, i, q);
    PushersSwap(file, cap, pipes, pushers, i, q, pushers[i]);
    StopSwap(file, cap, pipes, pushers, stopAt, i, q, pushers[i]);
  }

  /** The pipe the reader has just emptied. */
  function Emptied(p: Pipe): Pipe {
    if p.stop then Destroy(p) else p.(index := p.size)
  }

  // ------------------------------------------------------------------ every step, every run

  lemma PopKeeps(file: Data, cap: nat, s: State, t: State)
    requires cap > 0 && Inv(file, cap, s) && PopStep(s, t)
    ensures Inv(file, cap, t)
  {
    var p := s.pipes[s.pipeIndex];
    if !s.failed {
      assert PipeOk(file, cap, |s.pipes|, p, Due(|s.pipes|, s.pipeIndex, s.turn, s.pipeIndex), true);
      if p.size == 0 || (p.size > 0 && p.index == p.size) {
        PopEndKeeps(file, cap, s, t);
      } else if p.size > 0 && t.turn == s.turn {
        PopSomeKeeps(file, cap, s, t);
      } else if p.size > 0 {
        PopLastKeeps(file, cap, s, t);
      }
    }
  }

  lemma PusherKeeps(file: Data, cap: nat, s: State, t: State, step: Step)
    requires cap > 0 && Inv(file, cap, s) && NextStep(file, cap, s, t, step)
    requires step.Look? || step.Push? || step.Compare? || step.Leave?
    ensures Inv(file, cap, t)
  {
    if !s.stopped && !s.failed {
      match step {
        case Look(i) => LookKeeps(file, cap, s, t, i);
        case Push(i, error) => PushKeeps(file, cap, s, t, i, error);
        case Compare(i) => CompareKeeps(file, cap, s, t, i);
        case Leave(i) => LeaveKeeps(file, cap, s, t, i);
      }
    }
  }

  lemma CallKeeps(file: Data, cap: nat, s: State, t: State, step: Step)
    requires cap > 0 && Inv(file, cap, s) && NextStep(file, cap, s, t, step)
    requires step.Call? || step.Return? || step.Stop? || step.Kill?
    ensures Inv(file, cap, t)
  {
  }

  lemma NextKeeps(file: Data, cap: nat, s: State, t: State)
    requires cap > 0 && Inv(file, cap, s) && Next(file, cap, s, t)
    ensures Inv(file, cap, t)
  {
    var step :| NextStep(file, cap, s, t, step);
    if step.Pop? {
      PopKeeps(file, cap, s, t);
    } else if step.Look? || step.Push? || step.Compare? || step.Leave? {
      PusherKeeps(file, cap, s, t, step);
    } else {
      CallKeeps(file, cap, s, t, step);
    }
  }

  lemma {:induction false} RunKeepsInv(file: Data, cap: nat, states: seq<State>, i: nat)
    requires cap > 0 && Run(file, cap, states) && i < |states|
    ensures Inv(file, cap, states[i])
  {
    if i == 0 {
      InitOk(file, cap, states[0]);
    } else {
      RunKeepsInv(file, cap, states, i - 1);
      assert Next(file, cap, states[i - 1], states[i - 1 + 1]);
      NextKeeps(file, cap, states[i - 1], states[i]);
    }
  }

  /** The bytes returned so far are always a prefix of the file. */
  lemma DeliveredIsPrefix(file: Data, cap: nat, states: seq<State>, i: nat)
    requires cap > 0 && Run(file, cap, states) && i < |states|
    ensures states[i].delivered <= file
  {
    RunKeepsInv(file, cap, states, i);
    assert states[i].delivered <= states[i].delivered + Got(states[i].reader);
  }

  /** A call that returns fewer bytes than asked for, with no error so far and no stop, has delivered the file. */
  lemma ShortReturnIsEnd(file: Data, cap: nat, states: seq<State>, i: nat)
    requires cap > 0 && Run(file, cap, states) && i + 1 < |states|
    requires states[i].reader.Popping? && states[i + 1].reader == Outside
    requires |states[i].reader.got| < states[i].reader.want && !states[i + 1].failed && !states[i + 1].stopped
    ensures states[i + 1].delivered == file
  {
    RunKeepsInv(file, cap, states, i);
    var s, t := states[i], states[i + 1];
    assert Next(file, cap, states[i], states[i + 1]);
    var step :| NextStep(file, cap, s, t, step);
    assert step == Pop;
    PopEndKeeps(file, cap, s, t);
  }

  /** After an error, or a stop, no further byte is returned. */
  lemma NothingAfterError(file: Data, cap: nat, s: State, t: State)
    requires cap > 0 && Inv(file, cap, s) && Next(file, cap, s, t) && (s.failed || s.stopped)
    ensures t.delivered == s.delivered && (t.failed || t.stopped)
  {
    var step :| NextStep(file, cap, s, t, step);
  }
}
