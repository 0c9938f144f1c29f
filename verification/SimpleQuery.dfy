/**
 The simple-query handler: every statement of a batch is offered to the hooks in order, the first hook to
 claim it answers, the engine answers what no hook claims, and any error ends the batch.

 `W` is everything the hooks and the engine can see and change besides the transaction status: session
 variables, the portal store, the tables.
 */
module SimpleQuery {
  import opened Wrappers

  datatype Status = Idle | Transaction | Error

  datatype Statement =
    | Begin
    | Commit
    | Rollback
    | Cursor(text: string)
    | Setting(text: string)
    | Insert(text: string)
    | Other(text: string)

  datatype Plain = Execution(tag: string) | Query(rows: string)

  datatype Response = EmptyQuery | TransactionStart(tag: string) | TransactionEnd(tag: string) | Answered(plain: Plain)

  datatype Failure = SyntaxError | AbortedTransaction | Failed(code: string)

  type Answer = Result<Response, Failure>

  /** A hook sees the status but cannot set it; it may touch the world even when it declines. */
  type Hook<!W> = (Status, W, Statement) -> (W, Option<Answer>)

  datatype Service<!W> = Service(hooks: seq<Hook<W>>, engine: (W, Statement) -> (W, Result<Plain, Failure>))

  function Plainly(r: Result<Plain, Failure>): (a: Answer)
    ensures a.Ok? == r.Ok? && (a.Ok? ==> a.value.Answered?)
  {
    match r case Ok(p) => Ok(Answered(p)) case Err(e) => Err(e)
  }

  // ---------- The default hooks ----------

  /** What the cursor hook and the SET/SHOW hook do for the statements that are theirs. */
  datatype Handlers<!W> = Handlers(
    cursor: (W, string) -> (W, Result<Plain, Failure>),
    setting: (W, string) -> (W, Option<Result<Plain, Failure>>))

  function CursorHook<W>(h: Handlers<W>): Hook<W> {
    (status, w: W, s: Statement) =>
      if s.Cursor? then var (w', r) := h.cursor(w, s.text); (w', Some(Plainly(r))) else (w, None)
  }

  function SetShowHook<W>(h: Handlers<W>): Hook<W> {
    (status, w: W, s: Statement) =>
      if s.Setting? then
        var (w', r) := h.setting(w, s.text); (w', if r.Some? then Some(Plainly(r.value)) else None)
      else (w, None)
  }

  function RespondTransaction(status: Status, s: Statement): Result<Option<Response>, Failure> {
    match s
    case Begin =>
      (match status
       case Idle => Ok(Some(TransactionStart("BEGIN")))
       case Transaction => Ok(Some(Answered(Execution("BEGIN"))))
       case Error => Err(AbortedTransaction))
    case Commit => Ok(Some(TransactionEnd(if status.Error? then "ROLLBACK" else "COMMIT")))
    case Rollback => Ok(Some(TransactionEnd("ROLLBACK")))
    case _ => Ok(None)
  }

  function TransactionHook<W>(): Hook<W> {
    (status: Status, w: W, s: Statement) =>
      (w, match RespondTransaction(status, s)
          case Err(e) => Some(Err(e))
          case Ok(Some(response)) => Some(Ok(response))
          case Ok(None) => if status.Error? then Some(Err(AbortedTransaction)) else None)
  }

  function DefaultHooks<W>(h: Handlers<W>): seq<Hook<W>> {
    [CursorHook(h), SetShowHook(h), TransactionHook()]
  }

  function Default<W>(h: Handlers<W>, engine: (W, Statement) -> (W, Result<Plain, Failure>)): Service<W> {
    Service(DefaultHooks(h), engine)
  }

  // ---------- One batch ----------

  /** Offers the statement to the hooks until one claims it. */
  function Offer<W>(hooks: seq<Hook<W>>, status: Status, w: W, s: Statement): (W, Option<Answer>)
    decreases |hooks|
  {
    if hooks == [] then (w, None)
    else
      var (w', claim) := hooks[0](status, w, s);
      if claim.Some? then (w', claim) else Offer(hooks[1..], status, w', s)
  }

  function Reply<W>(svc: Service<W>, status: Status, w: W, s: Statement): (W, Answer) {
    var (w', claim) := Offer(svc.hooks, status, w, s);
    if claim.Some? then (w', claim.value)
    else var (w'', r) := svc.engine(w', s); (w'', Plainly(r))
  }

  function Drain<W>(svc: Service<W>, status: Status, w: W, statements: seq<Statement>): (W,
                    Result<seq<Response>, Failure>)
    decreases |statements|
  {
    if statements == [] then (w, Ok([]))
    else
      var (w', a) := Reply(svc, status, w, statements[0]);
      match a
      case Err(e) => (w', Err(e))
      case Ok(response) =>
        var (w'', rest) := Drain(svc, status, w', statements[1..]);
        (w'', Prefixed([response], rest))
  }

  function Prefixed(first: seq<Response>, rest: Result<seq<Response>, Failure>): Result<seq<Response>, Failure> {
    match rest case Ok(more) => Ok(first + more) case Err(e) => Err(e)
  }

  lemma PrefixedTwice(a: seq<Response>, b: seq<Response>, rest: Result<seq<Response>, Failure>)
    ensures Prefixed(a, Prefixed(b, rest)) == Prefixed(a + b, rest)
    ensures Prefixed([], rest) == rest
  {
    if rest.Ok? {
      assert a + (b + rest.value) == a + b + rest.value;
      assert [] + rest.value == rest.value;
    }
  }

  /** A query string, as the parser left it. */
  type Parsed = Result<seq<Statement>, Failure>

  function Process<W>(svc: Service<W>, status: Status, w: W, query: Parsed): (W, Result<seq<Response>, Failure>) {
    match query
    case Err(e) => (w, Err(e))
    case Ok(statements) => if statements == [] then (w, Ok([EmptyQuery])) else Drain(svc, status, w, statements)
  }

  /** How the wire layer moves the status once a batch is over. */
  function Settle(status: Status, r: Result<seq<Response>, Failure>): Status {
    match r
    case Err(_) => if status.Idle? then Idle else Error
    case Ok(responses) => Settled(status, responses)
  }

  function Settled(status: Status, responses: seq<Response>): Status {
    if responses == [] then status
    else
      var before := Settled(status, responses[..|responses| - 1]);
      match responses[|responses| - 1]
      case TransactionStart(_) => if before.Error? then Error else Transaction
      case TransactionEnd(_) => Idle
      case _ => before
  }

  class DfSessionService<W> {
    const service: Service<W>
    var status: Status
    var world: W

    constructor NewWithHooks(service: Service<W>, world: W)
      ensures this.service == service && this.world == world && status == Idle
    {
      this.service, this.world, status := service, world, Idle;
    }

    /** Offers one statement to the hooks, in order. */
    method CallHooks(statement: Statement) returns (claim: Option<Answer>)
      modifies this`world
      ensures (world, claim) == Offer(service.hooks, status, old(world), statement)
    {
      var i := 0;
      while i < |service.hooks|
        invariant 0 <= i <= |service.hooks|
        invariant Offer(service.hooks[i..], status, world, statement) ==
                  Offer(service.hooks, status, old(world), statement)
      {
        assert service.hooks[i..][1..] == service.hooks[i + 1..];
        var (w, c) := service.hooks[i](status, world, statement);
        world := w;
        if c.Some? { return c; }
        i := i + 1;
      }
      claim := None;
    }

    method DoQuery(query: Parsed) returns (r: Result<seq<Response>, Failure>)
      modifies this`world
      ensures (world, r) == Process(service, status, old(world), query)
    {
      if query.Err? { return Err(query.error); }
      var statements := query.value;
      if statements == [] { return Ok([EmptyQuery]); }
      var results: seq<Response> := [];
      var i := 0;
      assert statements[0..] == statements;
      PrefixedTwice([], [], Drain(service, status, world, statements).1);
      while i < |statements|
        invariant 0 <= i <= |statements|
        invariant var (w, rest) := Drain(service, status, world, statements[i..]);
                  Drain(service, status, old(world), statements) == (w, Prefixed(results, rest))
      {
        assert statements[i..][1..] == statements[i + 1..];
        ghost var a := Reply(service, status, world, statements[i]);
        if a.1.Ok? { PrefixedTwice(results, [a.1.value], Drain(service, status, a.0, statements[i + 1..]).1); }
        var claim := CallHooks(statements[i]);
        if claim.Some? {
          if claim.value.Err? { return Err(claim.value.error); }
          results := results + [claim.value.value];
        } else {
          var (w, outcome) := service.engine(world, statements[i]);
          world := w;
          if outcome.Err? { return Err(outcome.error); }
          results := results + [Answered(outcome.value)];
        }
        i := i + 1;
      }
      assert statements[i..] == [] && results + [] == results;
      r := Ok(results);
    }

    /** One round of the wire loop: answer the batch, then move the status. */
    method Serve(query: Parsed) returns (r: Result<seq<Response>, Failure>)
      modifies this
      ensures (world, r) == Process(service, old(status), old(world), query)
      ensures status == Settle(old(status), r)
    {
      r := DoQuery(query);
      status := Settle(status, r);
    }
  }
}
