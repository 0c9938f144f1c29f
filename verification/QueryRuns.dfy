/** What holds of a batch, and of every run of batches, under the default hook chain. */
module QueryRuns {
  import opened Wrappers
  import opened SimpleQuery

  // ---------- First claim wins, one response per statement ----------

  /** Hooks placed later are consulted only for what the earlier ones decline. */
  lemma {:induction false} FirstClaimWins<W>(first: seq<Hook<W>>, later: seq<Hook<W>>, status: Status, w: W,
                                             s: Statement)
    ensures var (w', claim) := Offer(first, status, w, s);
            Offer(first + later, status, w, s) == if claim.Some? then (w', claim) else Offer(later, status, w', s)
    decreases |first|
  {
    if first == [] {
      assert first + later == later;
    } else {
      assert (first + later)[1..] == first[1..] + later;
      var (w', claim) := first[0](status, w, s);
      FirstClaimWins(first[1..], later, status, w', s);
    }
  }

  /** The worlds a batch passes through while its first |responses| statements are answered in order. */
  ghost predicate Answers<W>(svc: Service<W>, status: Status, statements: seq<Statement>, worlds: seq<W>,
                             responses: seq<Response>) {
    |responses| <= |statements| && |worlds| == |responses| + 1 &&
    forall i :: 0 <= i < |responses| ==>
        Reply(svc, status, worlds[i], statements[i]) == (worlds[i + 1], Ok(responses[i]))
  }

  /** The only worlds and responses a batch can pass through, and how many statements are answered. */
  ghost function Trace<W>(svc: Service<W>, status: Status, w: W,
                          statements: seq<Statement>): (r: (seq<W>, seq<Response>))
    ensures Answers(svc, status, statements, r.0, r.1) && r.0[0] == w
    ensures var (w', out) := Drain(svc, status, w, statements);
            match out
            case Ok(responses) => responses == r.1 && |r.1| == |statements| && r.0[|r.1|] == w'
            case Err(e) => |r.1| < |statements| && Reply(svc, status, r.0[|r.1|], statements[|r.1|]) == (w', Err(e))
    decreases |statements|
  {
    if statements == [] then ([w], [])
    else
      var (w', a) := Reply(svc, status, w, statements[0]);
      if a.Err? then ([w], [])
      else
        var (worlds, responses) := Trace(svc, status, w', statements[1..]);
        ([w] + worlds, [a.value] + responses)
  }

  /** A batch succeeds with these responses if and only if each is the reply to its statement, in order. */
  lemma {:induction false} SucceedsExactly<W>(svc: Service<W>, status: Status, w: W, statements: seq<Statement>, w': W,
                                              responses: seq<Response>)
    ensures Drain(svc, status, w, statements) == (w', Ok(responses)) <==>
            |responses| == |statements| &&
            exists worlds :: Answers(svc, status, statements, worlds, responses) && worlds[0] == w &&
              worlds[|responses|] == w'
    decreases |statements|
  {
    var (worlds, told) := Trace(svc, status, w, statements);
    if worlds' :|
      |responses| == |statements| && Answers(svc, status, statements, worlds', responses) &&
      worlds'[0] == w && worlds'[|responses|] == w'
    {
      Deterministic(svc, status, statements, worlds, told, worlds', responses);
      var n := |told|;
      assert worlds'[n] == worlds[n];
      if n < |responses| { AnsweredAt(svc, status, statements, worlds', responses, n); }
      assert told == responses;
    }
  }

  lemma AnsweredAt<W>(svc: Service<W>, status: Status, statements: seq<Statement>, worlds: seq<W>,
                      responses: seq<Response>, i: nat)
    requires Answers(svc, status, statements, worlds, responses) && i < |responses|
    ensures Reply(svc, status, worlds[i], statements[i]) == (worlds[i + 1], Ok(responses[i]))
  {
  }

  /** Traces from one world agree as far as both go, and neither passes an error. */
  lemma {:induction false} Deterministic<W>(svc: Service<W>, status: Status, statements: seq<Statement>,
                                            worlds: seq<W>, told: seq<Response>, worlds': seq<W>, told': seq<Response>)
    requires Answers(svc, status, statements, worlds, told) && Answers(svc, status, statements, worlds', told')
    requires worlds[0] == worlds'[0] && |told| <= |told'|
    ensures worlds == worlds'[..|worlds|] && told == told'[..|told|]
    decreases |told|
  {
    if told != [] {
      var n := |told| - 1;
      assert Answers(svc, status, statements, worlds[..n + 1], told[..n]);
      Deterministic(svc, status, statements, worlds[..n + 1], told[..n], worlds', told');
      assert worlds[n] == worlds[..n + 1][n] == worlds'[n];
      assert worlds == worlds[..n + 1] + [worlds[n + 1]];
      assert told == told[..n] + [told[n]];
    }
  }

  // ---------- The reply to each statement ----------

  /** What the engine or a handler answers, as the client gets it. */
  function Wrapped<W>(answer: (W, Result<Plain, Failure>)): (W, Answer) {
    (answer.0, if answer.1.Ok? then Ok(Answered(answer.1.value)) else Err(answer.1.error))
  }

  /** The default chain's reply to every statement in each of the three states. */
  lemma ReplyExactly<W>(h: Handlers<W>, engine: (W, Statement) -> (W, Result<Plain, Failure>), status: Status, w: W,
                        s: Statement)
    ensures Reply(Default(h, engine), status, w, s) ==
            match s
            case Begin =>
              (w, if status.Idle? then Ok(TransactionStart("BEGIN"))
                  else if status.Transaction? then Ok(Answered(Execution("BEGIN")))
                  else Err(AbortedTransaction))
            case Commit => (w, Ok(TransactionEnd(if status.Error? then "ROLLBACK" else "COMMIT")))
            case Rollback => (w, Ok(TransactionEnd("ROLLBACK")))
            case Cursor(text) => Wrapped(h.cursor(w, text))
            case Setting(text) =>
              var (w', claim) := h.setting(w, text);
              if claim.Some? then Wrapped((w', claim.value))
              else if status.Error? then (w', Err(AbortedTransaction))
              else Wrapped(engine(w', s))
            case _ => if status.Error? then (w, Err(AbortedTransaction)) else Wrapped(engine(w, s))
  {
    DefaultOffer(h, status, w, s);
  }

  /** A statement reaches the engine if and only if the transaction has not failed and it is no BEGIN, COMMIT, ROLLBACK
      or cursor statement, nor a SET or SHOW that its handler claims. */
  lemma ReachesEngineExactly<W>(h: Handlers<W>, status: Status, w: W, s: Statement)
    ensures (exists engine, other :: Reply(Default(h, engine), status, w, s) != Reply(Default(h, other), status, w, s))
            <==> status != Error &&
                 (s.Insert? || s.Other? || (s.Setting? && h.setting(w, s.text).1.None?))
  {
    hide Reply, Default;
    var yes := (w': W, s': Statement) => (w', Ok(Query("")));
    var no := (w': W, s': Statement) => (w', Err(SyntaxError));
    ReplyExactly(h, yes, status, w, s);
    ReplyExactly(h, no, status, w, s);
    if status != Error && (s.Insert? || s.Other? || (s.Setting? && h.setting(w, s.text).1.None?)) {
      assert Reply(Default(h, yes), status, w, s).1 != Reply(Default(h, no), status, w, s).1;
    } else {
      forall engine, other ensures Reply(Default(h, engine), status, w, s) == Reply(Default(h, other), status, w, s) {
        ReplyExactly(h, engine, status, w, s);
        ReplyExactly(h, other, status, w, s);
      }
    }
  }

  // ---------- The status after a batch ----------

  predicate Ends(s: Statement) {
    s.Commit? || s.Rollback?
  }

  ghost predicate HasEnd(statements: seq<Statement>) {
    exists i :: 0 <= i < |statements| && Ends(statements[i])
  }

  /** Some BEGIN comes after every COMMIT and ROLLBACK. */
  ghost predicate OpensLast(statements: seq<Statement>) {
    exists i :: 0 <= i < |statements| && statements[i].Begin? && forall j :: i < j < |statements| ==>
        !Ends(statements[j])
  }

  /** How a response of the default chain relates to its statement. */
  predicate Fits(status: Status, s: Statement, r: Response) {
    (r.TransactionStart? <==> s.Begin? && status.Idle?) &&
    (r.TransactionEnd? <==> Ends(s)) &&
    (status.Error? ==> s.Commit? || s.Rollback? || s.Cursor? || s.Setting?) &&
    (status.Error? && Ends(s) ==> r == TransactionEnd("ROLLBACK"))
  }

  lemma ReplyFits<W>(h: Handlers<W>, engine: (W, Statement) -> (W, Result<Plain, Failure>), status: Status, w: W,
                     s: Statement)
    ensures var (_, a) := Reply(Default(h, engine), status, w, s);
            a.Ok? ==> Fits(status, s, a.value)
  {
    DefaultOffer(h, status, w, s);
    var (w1, cursor) := CursorHook(h)(status, w, s);
    var (w2, setting) := SetShowHook(h)(status, w1, s);
    assert cursor.Some? <==> s.Cursor?;
    assert cursor.Some? ==> cursor.value == Plainly(h.cursor(w, s.text).1);
    assert setting.Some? ==> s.Setting? && setting.value == Plainly(h.setting(w1, s.text).1.value);
    assert cursor.Some? && cursor.value.Ok? ==> cursor.value.value.Answered?;
    assert setting.Some? && setting.value.Ok? ==> setting.value.value.Answered?;
    var (w3, claim) := TransactionHook()(status, w2, s);
    assert claim.Some? && claim.value.Ok? ==> RespondTransaction(status, s) == Ok(Some(claim.value.value));
    assert claim == None ==> !status.Error? && !Ends(s) && !s.Begin?;
  }

  /** The default chain, spelled out. */
  lemma DefaultOffer<W>(h: Handlers<W>, status: Status, w: W, s: Statement)
    ensures var (w1, cursor) := CursorHook(h)(status, w, s);
            var (w2, setting) := SetShowHook(h)(status, w1, s);
            Offer(DefaultHooks(h), status, w, s) ==
            if cursor.Some? then (w1, cursor) else if setting.Some? then (w2, setting)
              else TransactionHook()(status, w2, s)
  {
    var (w1, cursor) := CursorHook(h)(status, w, s);
    var (w2, setting) := SetShowHook(h)(status, w1, s);
    var tail, last: seq<Hook<W>> := [SetShowHook(h), TransactionHook()], [TransactionHook()];
    assert DefaultHooks(h)[1..] == tail && tail[1..] == last && last[1..] == [];
    assert Offer(last[1..], status, TransactionHook()(status, w2, s).0, s).1 == None;
    assert Offer(last, status, w2, s) == TransactionHook()(status, w2, s);
    assert Offer(tail, status, w1, s) == if setting.Some? then (w2, setting) else Offer(last, status, w2, s);
    assert Offer(DefaultHooks(h), status, w, s) == if cursor.Some? then (w1, cursor) else Offer(tail, status, w1, s);
  }

  lemma {:induction false} BatchFits<W>(h: Handlers<W>, engine: (W, Statement) -> (W, Result<Plain, Failure>),
                                        status: Status, w: W, statements: seq<Statement>)
    ensures var (_, r) := Drain(Default(h, engine), status, w, statements);
            r.Ok? ==> |r.value| == |statements| && forall i :: 0 <= i < |statements| ==>
                Fits(status, statements[i], r.value[i])
    decreases |statements|
  {
    if statements != [] {
      ReplyFits(h, engine, status, w, statements[0]);
      var (w', a) := Reply(Default(h, engine), status, w, statements[0]);
      BatchFits(h, engine, status, w', statements[1..]);
      hide Fits, Reply, Default;
    }
  }

  lemma {:induction false} SettledExactly(status: Status, statements: seq<Statement>, responses: seq<Response>)
    requires |responses| == |statements|
    requires forall i :: 0 <= i < |statements| ==> Fits(status, statements[i], responses[i])
    ensures Settled(status, responses).Transaction? <==>
            (status.Idle? && OpensLast(statements)) || (status.Transaction? && !HasEnd(statements))
    ensures Settled(status, responses).Error? <==> status.Error? && !HasEnd(statements)
    decreases |statements|
  {
    if statements != [] {
      var n := |statements| - 1;
      var front, last := statements[..n], statements[n];
      SettledExactly(status, front, responses[..n]);
      assert forall i :: 0 <= i < n ==> front[i] == statements[i];
      assert HasEnd(statements) <==> HasEnd(front) || Ends(last) by {
        if i :| 0 <= i < |front| && Ends(front[i]) { assert Ends(statements[i]); }
        if i :| 0 <= i < |statements| && Ends(statements[i]) { assert i == n || Ends(front[i]); }
      }
      OpensLastStep(statements);
      assert Fits(status, last, responses[n]);
      hide OpensLast, HasEnd;
    }
  }

  /** Whatever the hooks, a failed transaction is left only by a response that ends it. */
  lemma {:induction false} OnlyEndsLeave(responses: seq<Response>)
    ensures Settled(Error, responses).Error? <==> forall r :: r in responses ==> !r.TransactionEnd?
    ensures Settled(Idle, responses) != Error && Settled(Transaction, responses) != Error
  {
    if responses != [] {
      var n := |responses| - 1;
      OnlyEndsLeave(responses[..n]);
      assert responses == responses[..n] + [responses[n]];
    }
  }

  lemma OpensLastStep(statements: seq<Statement>)
    requires statements != []
    ensures var n := |statements| - 1;
            OpensLast(statements) <==> statements[n].Begin? || (OpensLast(statements[..n]) && !Ends(statements[n]))
  {
    var n := |statements| - 1;
    var front := statements[..n];
    if i :| 0 <= i < n && front[i].Begin? && forall j :: i < j < n ==> !Ends(front[j]) {
      if !Ends(statements[n]) {
        assert statements[i].Begin?;
        forall j | i < j < |statements| ensures !Ends(statements[j]) { assert j == n || statements[j] == front[j]; }
      }
    }
    if i :| 0 <= i < |statements| && statements[i].Begin? && forall j :: i < j < |statements| ==> !Ends(statements[j]) {
      if i < n {
        assert front[i].Begin?;
        forall j | i < j < n ensures !Ends(front[j]) { assert statements[j] == front[j]; }
      }
    }
  }

  // ---------- Batches in a failed transaction ----------

  /** While the transaction has failed, the engine cannot matter: no statement reaches it. */
  lemma {:induction false} FailedBatchIgnoresEngine<W>(h: Handlers<W>,
                                                       engine: (W, Statement) -> (W, Result<Plain, Failure>),
                                                       other: (W, Statement) -> (W, Result<Plain, Failure>), w: W,
                                                         statements: seq<Statement>)
    ensures Drain(Default(h, engine), Error, w, statements) == Drain(Default(h, other), Error, w, statements)
    decreases |statements|
  {
    if statements != [] {
      DefaultOffer(h, Error, w, statements[0]);
      assert Offer(DefaultHooks(h), Error, w, statements[0]).1.Some?;
      var (w', a) := Reply(Default(h, engine), Error, w, statements[0]);
      assert Reply(Default(h, other), Error, w, statements[0]) == (w', a);
      FailedBatchIgnoresEngine(h, engine, other, w', statements[1..]);
      hide Reply, Default;
    }
  }

  /** A failed transaction is left exactly by a batch that succeeds and holds a COMMIT or ROLLBACK; a batch that
      succeeds holds nothing else than those, cursor statements and SET/SHOW, and both ends answer ROLLBACK.
      So a ROLLBACK sent in one batch with a query for the engine leaves the transaction failed. */
  lemma LeavesErrorExactly<W>(h: Handlers<W>, engine: (W, Statement) -> (W, Result<Plain, Failure>), w: W,
                              query: Parsed)
    ensures var r := Process(Default(h, engine), Error, w, query).1;
            (Settle(Error, r) != Error <==> r.Ok? && HasEnd(query.value)) &&
            (Settle(Error, r) != Error ==> Settle(Error, r) == Idle) &&
            (r.Ok? && query.value != [] ==>
              |r.value| == |query.value| &&
              forall i :: 0 <= i < |query.value| ==>
                (query.value[i].Cursor? || query.value[i].Setting? || r.value[i] == TransactionEnd("ROLLBACK"))) &&
            (query.Ok? &&
                (exists i :: 0 <= i < |query.value| &&
                    (query.value[i].Begin? || query.value[i].Insert? || query.value[i].Other?)) ==>
              r.Err? && Settle(Error, r) == Error)
  {
    BatchMoves(h, engine, Error, w, query);
    if query.Ok? && query.value != [] {
      BatchFits(h, engine, Error, w, query.value);
      hide Drain, Default, HasEnd, Settled;
    }
  }

  /** The status a batch leaves, from its statements and whether it succeeded. */
  lemma BatchMoves<W>(h: Handlers<W>, engine: (W, Statement) -> (W, Result<Plain, Failure>), status: Status, w: W,
                      query: Parsed)
    ensures var r := Process(Default(h, engine), status, w, query).1;
            (r.Ok? ==> query.Ok?) &&
            (Settle(status, r).Transaction? <==>
              r.Ok? && ((status.Idle? && OpensLast(query.value)) || (status.Transaction? && !HasEnd(query.value)))) &&
            (Settle(status, r).Error? <==>
              if r.Ok? then status.Error? && !HasEnd(query.value) else !status.Idle?)
  {
    var r := Process(Default(h, engine), status, w, query).1;
    if r.Ok? {
      if query.value == [] {
        assert Settled(status, [EmptyQuery]) == Settled(status, []) == status;
      } else {
        BatchFits(h, engine, status, w, query.value);
        SettledExactly(status, query.value, r.value);
      }
    }
  }

  // ---------- Runs ----------

  datatype State<W> = State(status: Status, world: W)

  function Step<W>(svc: Service<W>, st: State<W>, query: Parsed): State<W> {
    var (w', r) := Process(svc, st.status, st.world, query);
    State(Settle(st.status, r), w')
  }

  /** The state after the batches, oldest first. */
  function After<W>(svc: Service<W>, st: State<W>, queries: seq<Parsed>): State<W>
    decreases |queries|
  {
    if queries == [] then st
    else Step(svc, After(svc, st, queries[..|queries| - 1]), queries[|queries| - 1])
  }

  function AnswerTo<W>(svc: Service<W>, st: State<W>, queries: seq<Parsed>, i: nat): Result<seq<Response>, Failure>
    requires i < |queries|
  {
    var before := After(svc, st, queries[..i]);
    Process(svc, before.status, before.world, queries[i]).1
  }

  lemma PrefixAnswers<W>(svc: Service<W>, st: State<W>, queries: seq<Parsed>, n: nat, i: nat)
    requires i < n <= |queries|
    ensures AnswerTo(svc, st, queries[..n], i) == AnswerTo(svc, st, queries, i)
    ensures queries[..n][..i] == queries[..i]
  {
    assert queries[..n][..i] == queries[..i];
  }

  /** Batch `i` fails inside a transaction, and no later batch succeeds with a COMMIT or ROLLBACK in it. */
  ghost predicate FailedAt<W>(svc: Service<W>, w: W, queries: seq<Parsed>, i: nat)
    requires i < |queries|
  {
    After(svc, State(Idle, w), queries[..i]).status.Transaction? && AnswerTo(svc, State(Idle, w), queries, i).Err? &&
    forall j :: i < j < |queries| ==> !Closes(svc, w, queries, j)
  }

  ghost predicate Closes<W>(svc: Service<W>, w: W, queries: seq<Parsed>, j: nat)
    requires j < |queries|
  {
    AnswerTo(svc, State(Idle, w), queries, j).Ok? && queries[j].Ok? && HasEnd(queries[j].value)
  }

  /** Batch `i` opens a transaction from idle, and every later batch succeeds without a COMMIT or ROLLBACK. */
  ghost predicate OpenedAt<W>(svc: Service<W>, w: W, queries: seq<Parsed>, i: nat)
    requires i < |queries|
  {
    After(svc, State(Idle, w), queries[..i]).status.Idle? &&
    AnswerTo(svc, State(Idle, w), queries, i).Ok? && queries[i].Ok? && OpensLast(queries[i].value) &&
    forall j :: i < j < |queries| ==> Plods(svc, w, queries, j)
  }

  ghost predicate Plods<W>(svc: Service<W>, w: W, queries: seq<Parsed>, j: nat)
    requires j < |queries|
  {
    AnswerTo(svc, State(Idle, w), queries, j).Ok? && queries[j].Ok? && !HasEnd(queries[j].value)
  }

  lemma LastStep<W>(svc: Service<W>, w: W, queries: seq<Parsed>)
    requires queries != []
    ensures var n := |queries| - 1;
            var r := AnswerTo(svc, State(Idle, w), queries, n);
            After(svc, State(Idle, w), queries).status == Settle(After(svc, State(Idle, w), queries[..n]).status, r)
  {
  }

  /** At the end of a run the transaction has failed if and only if some batch failed it and none has closed it
      since. */
  lemma {:induction false} FailedExactly<W>(h: Handlers<W>, engine: (W, Statement) -> (W, Result<Plain, Failure>), w: W,
                                            queries: seq<Parsed>)
    ensures var svc := Default(h, engine);
            After(svc, State(Idle, w), queries).status.Error? <==>
              exists i: nat :: i < |queries| && FailedAt(svc, w, queries, i)
    decreases |queries|
  {
    if queries != [] {
      var svc, n := Default(h, engine), |queries| - 1;
      var front, before := queries[..n], After(svc, State(Idle, w), queries[..n]);
      FailedExactly(h, engine, w, front);
      BatchMoves(h, engine, before.status, before.world, queries[n]);
      LastStep(svc, w, queries);
      forall i: nat | i < n
        ensures FailedAt(svc, w, queries, i) <==> FailedAt(svc, w, front, i) && !Closes(svc, w, queries, n)
      {
        FailedStep(svc, w, queries, i);
      }
      assert FailedAt(svc, w, queries, n) <==>
             before.status.Transaction? && AnswerTo(svc, State(Idle, w), queries, n).Err?;
      var r := AnswerTo(svc, State(Idle, w), queries, n);
      assert Closes(svc, w, queries, n) <==> r.Ok? && HasEnd(queries[n].value);
      hide FailedAt, Closes, AnswerTo, After, Default, Process, OpensLast, HasEnd;
      if i: nat :| i < n && FailedAt(svc, w, front, i) {
        assert FailedAt(svc, w, queries, i) <==> !Closes(svc, w, queries, n);
      }
    }
  }

  lemma FailedStep<W>(svc: Service<W>, w: W, queries: seq<Parsed>, i: nat)
    requires i < |queries| - 1
    ensures var n := |queries| - 1;
            FailedAt(svc, w, queries, i) <==> FailedAt(svc, w, queries[..n], i) && !Closes(svc, w, queries, n)
  {
    var n := |queries| - 1;
    forall j: nat | j < n
      ensures AnswerTo(svc, State(Idle, w), queries[..n], j) == AnswerTo(svc, State(Idle, w), queries, j) &&
              queries[..n][j] == queries[j]
      ensures queries[..n][..j] == queries[..j]
    {
      PrefixAnswers(svc, State(Idle, w), queries, n, j);
    }
    hide AnswerTo, After, HasEnd;
    forall j: nat | j < n ensures Closes(svc, w, queries[..n], j) == Closes(svc, w, queries, j) {}
  }

  /** ... and a transaction is open if and only if some batch opened it and every later one kept it so. */
  lemma {:induction false} OpenExactly<W>(h: Handlers<W>, engine: (W, Statement) -> (W, Result<Plain, Failure>), w: W,
                                          queries: seq<Parsed>)
    ensures var svc := Default(h, engine);
            After(svc, State(Idle, w), queries).status.Transaction? <==>
              exists i: nat :: i < |queries| && OpenedAt(svc, w, queries, i)
    decreases |queries|
  {
    if queries != [] {
      var svc, n := Default(h, engine), |queries| - 1;
      var front, before := queries[..n], After(svc, State(Idle, w), queries[..n]);
      OpenExactly(h, engine, w, front);
      BatchMoves(h, engine, before.status, before.world, queries[n]);
      LastStep(svc, w, queries);
      forall i: nat | i < n
        ensures OpenedAt(svc, w, queries, i) <==> OpenedAt(svc, w, front, i) && Plods(svc, w, queries, n)
      {
        OpenedStep(svc, w, queries, i);
      }
      var r := AnswerTo(svc, State(Idle, w), queries, n);
      assert OpenedAt(svc, w, queries, n) <==> before.status.Idle? && r.Ok? && OpensLast(queries[n].value);
      assert Plods(svc, w, queries, n) <==> r.Ok? && !HasEnd(queries[n].value);
      hide OpenedAt, Plods, AnswerTo, After, Default, Process, OpensLast, HasEnd;
      if i: nat :| i < n && OpenedAt(svc, w, front, i) {
        assert OpenedAt(svc, w, queries, i) <==> Plods(svc, w, queries, n);
      }
    }
  }

  lemma OpenedStep<W>(svc: Service<W>, w: W, queries: seq<Parsed>, i: nat)
    requires i < |queries| - 1
    ensures var n := |queries| - 1;
            OpenedAt(svc, w, queries, i) <==> OpenedAt(svc, w, queries[..n], i) && Plods(svc, w, queries, n)
  {
    var n := |queries| - 1;
    forall j: nat | j < n
      ensures AnswerTo(svc, State(Idle, w), queries[..n], j) == AnswerTo(svc, State(Idle, w), queries, j) &&
              queries[..n][j] == queries[j]
      ensures queries[..n][..j] == queries[..j]
    {
      PrefixAnswers(svc, State(Idle, w), queries, n, j);
    }
    hide AnswerTo, After, HasEnd, OpensLast;
    forall j: nat | j < n ensures Plods(svc, w, queries[..n], j) == Plods(svc, w, queries, j) {}
  }

  /** Along any run, for as long as the transaction stays failed, replacing the engine changes no state and no answer,
      the batch that leaves the failed state included. */
  lemma {:induction false} FailedRunIgnoresEngine<W>(h: Handlers<W>,
                                                     engine: (W, Statement) -> (W, Result<Plain, Failure>),
                                                     other: (W, Statement) -> (W, Result<Plain, Failure>), w: W,
                                                       queries: seq<Parsed>)
    requires forall i :: 0 <= i < |queries| ==> After(Default(h, engine), State(Error, w), queries[..i]).status.Error?
    ensures After(Default(h, engine), State(Error, w), queries) == After(Default(h, other), State(Error, w), queries)
    ensures forall i :: 0 <= i < |queries| ==>
            AnswerTo(Default(h, engine), State(Error, w), queries, i) ==
              AnswerTo(Default(h, other), State(Error, w), queries, i)
    decreases |queries|
  {
    if queries != [] {
      var n := |queries| - 1;
      var st := State(Error, w);
      var e, o := Default(h, engine), Default(h, other);
      forall i | 0 <= i < n
        ensures queries[..n][..i] == queries[..i]
        ensures AnswerTo(e, st, queries[..n], i) == AnswerTo(e, st, queries, i) &&
                AnswerTo(o, st, queries[..n], i) == AnswerTo(o, st, queries, i)
      {
        PrefixAnswers(e, st, queries, n, i);
        PrefixAnswers(o, st, queries, n, i);
      }
      FailedRunIgnoresEngine(h, engine, other, w, queries[..n]);
      var before := After(e, st, queries[..n]);
      if queries[n].Ok? { FailedBatchIgnoresEngine(h, engine, other, before.world, queries[n].value); }
      assert before.status == Error && before == After(o, st, queries[..n]);
      assert Process(e, Error, before.world, queries[n]) == Process(o, Error, before.world, queries[n]);
      assert AnswerTo(e, st, queries, n) == AnswerTo(o, st, queries, n);
      hide Default, Process, AnswerTo;
    }
  }
}
