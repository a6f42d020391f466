/** The one-slot handoff between rx_task and tx_task (network_tasks.c): a shared request
    structure, a shared client socket and a counting semaphore.  Each action is one access the
    other task can be scheduled before or after; in particular the structure is copied and read
    word by word. */
module QueryHandoff {
  const REQUEST_WORDS: nat := 201
  const NO_CLIENT := -1

  type Request = r: seq<int> | |r| == REQUEST_WORDS witness seq(REQUEST_WORDS, i => 0)

  datatype Rx =
    | Accepting
    | Receiving(fd: nat)                      // no client was being served
    | Storing(fd: nat, parsed: Request, k: nat)  // k words of pending_request written
    | Naming(fd: nat, parsed: Request)        // about to set current_client_socket
    | Posting                                 // about to post the semaphore

  datatype Tx =
    | Pending                                 // about to call OSSemPend
    | Blocked                                 // in the semaphore's wait list
    | Woken                                   // about to look at current_client_socket
    | Reading(seen: seq<int>)                 // these words of pending_request used so far
    | Closing                                 // the answer is out; about to close the client
    | Clearing                                // closed; about to reset current_client_socket

  /** admitted and processed are histories: what rx_task stored and announced, what tx_task
      read and answered. */
  datatype State = State(
    rx: Rx, tx: Tx, pending: Request, socket: int, count: nat,
    admitted: seq<Request>, processed: seq<seq<int>>)

  datatype Action =
    | Accept(fd: nat) | Drop | Parse(r: Request) | Store | Name | Post
    | Pend | Look | Read | Answer | Close | Clear

  predicate Enabled(s: State, a: Action) {
    match a
    case Accept(_) => s.rx == Accepting
    case Drop => s.rx.Receiving?
    case Parse(_) => s.rx.Receiving?
    case Store => s.rx.Storing? && s.rx.k < REQUEST_WORDS
    case Name => s.rx.Naming?
    case Post => s.rx == Posting
    case Pend => s.tx == Pending
    case Look => s.tx == Woken
    case Read => s.tx.Reading? && |s.tx.seen| < REQUEST_WORDS
    case Answer => s.tx.Reading? && |s.tx.seen| == REQUEST_WORDS
    case Close => s.tx == Closing
    case Clear => s.tx == Clearing
  }

  function Step(s: State, a: Action): State
    requires Enabled(s, a)
  {
    match a
    case Accept(fd) => if s.socket >= 0 then s else s.(rx := Receiving(fd))
    case Drop => s.(rx := Accepting)
    case Parse(r) => s.(rx := Storing(s.rx.fd, r, 0))
    case Store =>
      var k := s.rx.k;
      s.(pending := s.pending[k := s.rx.parsed[k]],
         rx := if k + 1 == REQUEST_WORDS then Naming(s.rx.fd, s.rx.parsed) else s.rx.(k := k + 1))
    case Name => s.(socket := s.rx.fd, rx := Posting, admitted := s.admitted + [s.rx.parsed])
    case Post =>
      if s.tx == Blocked then s.(tx := Woken, rx := Accepting) else s.(count := s.count + 1, rx := Accepting)
    case Pend => if s.count > 0 then s.(count := s.count - 1, tx := Woken) else s.(tx := Blocked)
    case Look => if s.socket >= 0 then s.(tx := Reading([])) else s.(tx := Pending)
    case Read => s.(tx := Reading(s.tx.seen + [s.pending[|s.tx.seen|]]))
    case Answer => s.(tx := Closing, processed := s.processed + [s.tx.seen])
    case Close => if s.socket >= 0 then s.(tx := Clearing) else s.(tx := Pending)
    case Clear => s.(socket := NO_CLIENT, tx := Pending)
  }

  predicate Initial(s: State) {
    s.rx == Accepting && s.tx == Pending && s.socket == NO_CLIENT && s.count == 0 && s.admitted == [] && s.processed == []
  }

  predicate Free(t: Tx) {
    t == Pending || t == Blocked
  }

  /** No client: rx_task alone may touch the request. */
  predicate NoClient(s: State) {
    && s.socket < 0 && s.count == 0 && Free(s.tx) && s.admitted == s.processed
    && match s.rx
       case Storing(_, parsed, k) => k < REQUEST_WORDS && s.pending[..k] == parsed[..k]
       case Naming(_, parsed) => s.pending == parsed
       case Posting => false
       case _ => true
  }

  /** One request admitted and not yet answered: it is in the slot, and one token for it is on
      its way to tx_task or there. */
  predicate InFlight(s: State) {
    && s.socket >= 0 && s.admitted == s.processed + [s.pending]
    && (if s.rx == Posting then s.count == 0 && Free(s.tx)
        else s.rx == Accepting
             && if s.tx == Pending then s.count == 1
                else s.count == 0 && (s.tx == Woken
                                      || (s.tx.Reading? && |s.tx.seen| <= REQUEST_WORDS && s.tx.seen == s.pending[..|s.tx.seen|])))
  }

  /** Answered, the client not yet let go. */
  predicate Answered(s: State) {
    s.socket >= 0 && s.count == 0 && s.rx == Accepting && (s.tx == Closing || s.tx == Clearing) && s.admitted == s.processed
  }

  predicate Inv(s: State) {
    NoClient(s) || InFlight(s) || Answered(s)
  }

  lemma StepKeepsInv(s: State, a: Action)
    requires Inv(s) && Enabled(s, a)
    ensures Inv(Step(s, a))
  {
    var s' := Step(s, a);
    match a
    case Store => StoreCopies(s.pending, s.rx.parsed, s.rx.k);
    case Read => assert s.pending[..|s.tx.seen| + 1] == s.pending[..|s.tx.seen|] + [s.pending[|s.tx.seen|]];
    case Answer => assert s.pending[..REQUEST_WORDS] == s.pending;
    case _ =>
  }

  lemma StoreCopies(pending: Request, parsed: Request, k: nat)
    requires k < REQUEST_WORDS && pending[..k] == parsed[..k]
    ensures pending[k := parsed[k]][..k + 1] == parsed[..k + 1]
    ensures k + 1 == REQUEST_WORDS ==> pending[k := parsed[k]] == parsed
  {
    var p := pending[k := parsed[k]];
    assert p[..k] == pending[..k];
    assert p[..k + 1] == p[..k] + [p[k]] && parsed[..k + 1] == parsed[..k] + [parsed[k]];
    assert k + 1 == REQUEST_WORDS ==> p == p[..k + 1] && parsed == parsed[..k + 1];
  }

  ghost predicate Run(s: State, acts: seq<Action>, end: State)
    decreases |acts|
  {
    if acts == [] then s == end else Enabled(s, acts[0]) && Run(Step(s, acts[0]), acts[1..], end)
  }

  lemma {:induction false} RunKeepsInv(s: State, acts: seq<Action>, end: State)
    requires Inv(s) && Run(s, acts, end)
    ensures Inv(end)
    decreases |acts|
  {
    if acts != [] {
      StepKeepsInv(s, acts[0]);
      RunKeepsInv(Step(s, acts[0]), acts[1..], end);
    }
  }

  /** tx_task has taken up a request and has not answered it yet. */
  predicate Processing(s: State) {
    s.tx == Woken || s.tx.Reading?
  }

  /** In every interleaving: requests are answered in the order they were admitted, each exactly
      once and with exactly the words rx_task stored, at most one is outstanding, and the
      semaphore never counts more than one. */
  lemma HandoffIsExact(s0: State, acts: seq<Action>, s: State)
    requires Initial(s0) && Run(s0, acts, s)
    ensures s.processed <= s.admitted && |s.admitted| <= |s.processed| + 1
    ensures s.count <= 1
    ensures Processing(s) ==> s.admitted == s.processed + [s.pending] && s.socket >= 0
    ensures s.tx == Blocked && s.rx == Accepting ==> s.admitted == s.processed && s.socket < 0
  {
    assert NoClient(s0);
    RunKeepsInv(s0, acts, s);
  }

  /** While tx_task processes a request no step of anyone changes it, and a client that connects
      in the meantime is turned away. */
  lemma PendingIsStable(s0: State, acts: seq<Action>, s: State, a: Action)
    requires Initial(s0) && Run(s0, acts, s) && Enabled(s, a) && Processing(s)
    ensures Step(s, a).pending == s.pending && Step(s, a).admitted == s.admitted
    ensures a.Accept? ==> Step(s, a) == s
  {
    assert NoClient(s0);
    RunKeepsInv(s0, acts, s);
  }

  /** Nothing gets stuck: while a request is outstanding one of the two tasks can move it on. */
  lemma OutstandingMoves(s0: State, acts: seq<Action>, s: State) returns (a: Action)
    requires Initial(s0) && Run(s0, acts, s) && s.admitted != s.processed
    ensures Enabled(s, a) && (a in {Post, Pend, Look, Read, Answer})
    ensures a == Pend || a == Post ==> Step(s, a).tx == Woken || Step(s, a).count == 1
  {
    assert NoClient(s0);
    RunKeepsInv(s0, acts, s);
    a := if s.rx == Posting then Post else if s.tx == Pending then Pend else if s.tx == Woken then Look
         else if |s.tx.seen| < REQUEST_WORDS then Read else Answer;
  }
}
