/**
 * What a wait for a turn returns, stated over the order in which frames arrived: completions that
 * overtook a reply and completions still to come are one sequence.
 */
module TurnCorrelation {
  import opened Prelude
  import opened Control
  import opened Json
  import opened Rpc

  // ---------------------------------------------------------------- what a frame says

  /** The message that some turn is over. */
  predicate IsTurnEnd(v: Value) {
    Get(v, "method") == Some(Str("turn/completed"))
  }

  /** The message that this turn of this thread is over. */
  predicate Completes(v: Value, thread: string, turn: string) {
    && IsTurnEnd(v)
    && At(v, ["params", "threadId"]) == Some(Str(thread))
    && At(v, ["params", "turn", "id"]) == Some(Str(turn))
  }

  /** The status in the message is the answer, or the fault is told. */
  predicate EndsAs(v: Value, r: Result<string, Fault>) {
    match At(v, ["params", "turn", "status"])
    case Some(Str(status)) =>
      r == if status in {"completed", "interrupted", "failed"} then Ok(status) else Err(TurnStatusUnknown)
    case _ => r == Err(TurnStatusMissing)
  }

  /** The message carries an identifier: it is a request of the server. */
  predicate IsIdentified(v: Value) {
    Get(v, "id").Some?
  }

  function StatusOf(r: Result<TurnEnd, Fault>): Result<string, Fault> {
    match r
    case Ok(end) => Ok(end.status)
    case Err(f) => Err(f)
  }

  /** A message the driver can answer or count. */
  predicate IsAnswerable(v: Value) {
    && Get(v, "method").Some? && Get(v, "method").value.Str?
    && match Get(v, "id")
       case Some(Str(id)) => ByteLength(id) <= 128
       case Some(Number(_)) => true
       case Some(_) => false
       case None => true
  }

  lemma MatchMeaning(v: Value, thread: string, turn: string)
    ensures IsMatch(v, thread, turn) <==> Completes(v, thread, turn)
    ensures IsCompletion(v) <==> IsTurnEnd(v)
    ensures EndsAs(v, Status(v))
    ensures forall r :: EndsAs(v, r) ==> r == Status(v)
  {
  }

  // ---------------------------------------------------------------- what arrives

  /** What the driver can see of the stream: all but the replies to its own interrupts. */
  function Visible(incoming: seq<Arrival>): seq<Arrival> {
    if incoming == [] then []
    else
      var mine := incoming[0].Frame? && Get(incoming[0].v, "id") == Some(Str("workstation-cancel"));
      (if mine then [] else [incoming[0]]) + Visible(incoming[1..])
  }

  function Frames(vs: seq<Value>): (a: seq<Arrival>)
    ensures |a| == |vs|
  {
    seq(|vs|, i requires 0 <= i < |vs| => Frame(vs[i]))
  }

  lemma {:induction false} SkippedIsInvisible(incoming: seq<Arrival>)
    ensures Visible(SkipAcks(incoming)) == Visible(incoming)
    ensures SkipAcks(incoming) == [] <==> Visible(incoming) == []
    ensures SkipAcks(incoming) != [] ==>
      Visible(incoming) == [SkipAcks(incoming)[0]] + Visible(SkipAcks(incoming)[1..])
  {
    if incoming != [] && IsAck(incoming[0]) {
      SkippedIsInvisible(incoming[1..]);
    }
  }

  /** Taking a frame takes the first visible arrival. */
  lemma NextIsFirstVisible(s: State)
    ensures var (t, r) := NextFrame(s);
      r.Ok? <==> s.frames < 10000 && Visible(s.incoming) != [] && Visible(s.incoming)[0].Frame?
    ensures var (t, r) := NextFrame(s);
      r.Ok? ==>
        && Visible(s.incoming) == [Frame(r.value)] + Visible(t.incoming)
        && t == s.(frames := s.frames + 1, incoming := t.incoming, heard := s.heard + [r.value])
  {
    SkippedIsInvisible(s.incoming);
  }

  // ---------------------------------------------------------------- one wait

  /** What a wait looks at: the queue, then the stream. */
  function Candidates(s: State): seq<Arrival> {
    Frames(s.pending) + Visible(s.incoming)
  }

  predicate Passes(a: Arrival, thread: string, turn: string) {
    a.Frame? && !Completes(a.v, thread, turn) && (IsTurnEnd(a.v) || IsAnswerable(a.v))
  }

  /** The first arrival that completes the turn, with nothing before it that stops the wait. */
  predicate IsFirstMatch(c: seq<Arrival>, k: nat, thread: string, turn: string) {
    && k < |c| && c[k].Frame? && Completes(c[k].v, thread, turn)
    && forall i | 0 <= i < k :: Passes(c[i], thread, turn)
  }

  /** The frame allowance reaches candidate k; queued candidates were paid for when they arrived. */
  predicate IsAffordable(s: State, k: nat) {
    k < |s.pending| || s.frames + (k - |s.pending|) < 10000
  }

  lemma NextTurnFrameIsFirst(s: State)
    ensures var (t, r) := NextTurnFrame(s);
      r.Ok? <==> Candidates(s) != [] && Candidates(s)[0].Frame? && IsAffordable(s, 0)
    ensures var (t, r) := NextTurnFrame(s);
      r.Ok? ==>
        && Candidates(s) == [Frame(r.value)] + Candidates(t) && t.notifications == s.notifications
        && (forall k: nat :: IsAffordable(t, k) <==> IsAffordable(s, k + 1))
  {
    var (t, r) := NextTurnFrame(s);
    if s.pending != [] {
      assert Frames(s.pending) == [Frame(s.pending[0])] + Frames(t.pending);
    } else {
      NextIsFirstVisible(s);
    }
  }

  /** The notifications among the arrivals that are not about the end of a turn. */
  function Asides(c: seq<Arrival>): nat {
    if c == [] then 0
    else (if c[0].Frame? && !IsTurnEnd(c[0].v) && !IsIdentified(c[0].v) then 1 else 0) + Asides(c[1..])
  }

  /** A wait that answers gives the status of the first completion of its turn and counts what it passed over. */
  lemma {:induction false} WaitFindsFirst(s: State, thread: string, turn: string)
    requires Wait(s, thread, turn).1.Ok?
    ensures exists k: nat ::
      && IsFirstMatch(Candidates(s), k, thread, turn) && IsAffordable(s, k)
      && EndsAs(Candidates(s)[k].v, StatusOf(Wait(s, thread, turn).1))
      && Wait(s, thread, turn).1.value.notifications == s.notifications + Asides(Candidates(s)[..k])
    decreases |s.pending| + |s.incoming|
  {
    hide Candidates;
    hide Completes;
    hide IsTurnEnd;
    hide IsMatch;
    hide IsCompletion;
    hide Status;
    hide EndsAs;
    hide IsAffordable;
    hide IsAnswerable;
    hide NextTurnFrame;
    var c := Candidates(s);
    NextTurnFrameIsFirst(s);
    var (t, r) := NextTurnFrame(s);
    var v := r.value;
    MatchMeaning(v, thread, turn);
    if Completes(v, thread, turn) {
      assert IsFirstMatch(c, 0, thread, turn);
    } else {
      var u := if IsCompletion(v) then t else Respond(t, v).value;
      AnswerKeepsStream(t, v);
      WaitFindsFirst(u, thread, turn);
      var k: nat :| IsFirstMatch(Candidates(u), k, thread, turn) && IsAffordable(u, k)
        && EndsAs(Candidates(u)[k].v, StatusOf(Wait(u, thread, turn).1))
        && Wait(u, thread, turn).1.value.notifications == u.notifications + Asides(Candidates(u)[..k]);
      FirstMatchLater(c, Candidates(u), k, thread, turn);
      OneAside(c, Candidates(u), k);
      assert IsAffordable(s, k + 1);
    }
  }

  lemma OneAside(c: seq<Arrival>, rest: seq<Arrival>, k: nat)
    requires c != [] && c == [c[0]] + rest && k <= |rest|
    ensures Asides(c[..k + 1]) == Asides([c[0]]) + Asides(rest[..k])
  {
    hide IsTurnEnd;
    hide IsIdentified;
    assert c[..k + 1][1..] == rest[..k] && c[..k + 1][0] == c[0];
    assert [c[0]][1..] == [];
  }

  lemma AnswerKeepsStream(t: State, v: Value)
    ensures Respond(t, v).Ok? <==> IsAnswerable(v)
    ensures Respond(t, v).Ok? ==>
      Respond(t, v).value.notifications == t.notifications + if IsIdentified(v) then 0 else 1
    ensures Respond(t, v).Ok? ==>
      Candidates(Respond(t, v).value) == Candidates(t)
      && forall k: nat :: IsAffordable(Respond(t, v).value, k) == IsAffordable(t, k)
  {
  }

  lemma FirstMatchLater(c: seq<Arrival>, rest: seq<Arrival>, k: nat, thread: string, turn: string)
    requires c != [] && c == [c[0]] + rest && Passes(c[0], thread, turn)
    ensures IsFirstMatch(rest, k, thread, turn) <==> IsFirstMatch(c, k + 1, thread, turn)
    ensures k < |rest| ==> c[k + 1] == rest[k]
  {
    hide Passes;
    hide Completes;
    assert forall i | 0 <= i < |rest| :: c[i + 1] == rest[i];
    if IsFirstMatch(c, k + 1, thread, turn) {
      forall i | 0 <= i < k ensures Passes(rest[i], thread, turn) {
        assert Passes(c[i + 1], thread, turn);
      }
    }
  }

  /** A reachable first completion with a known status ends the wait with that status. */
  lemma {:induction false} WaitEndsAtFirst(s: State, thread: string, turn: string, k: nat)
    requires IsFirstMatch(Candidates(s), k, thread, turn) && IsAffordable(s, k)
    ensures EndsAs(Candidates(s)[k].v, StatusOf(Wait(s, thread, turn).1))
    decreases k
  {
    hide Candidates;
    hide Completes;
    hide IsTurnEnd;
    hide IsMatch;
    hide IsCompletion;
    hide Status;
    hide EndsAs;
    hide IsAnswerable;
    hide NextTurnFrame;
    var c := Candidates(s);
    NextTurnFrameIsFirst(s);
    assert k > 0 ==> Passes(c[0], thread, turn);
    assert IsAffordable(s, 0);
    var (t, r) := NextTurnFrame(s);
    MatchMeaning(r.value, thread, turn);
    if k > 0 {
      AnswerKeepsStream(t, r.value);
      var u := if IsCompletion(r.value) then t else Respond(t, r.value).value;
      FirstMatchLater(c, Candidates(u), k - 1, thread, turn);
      assert IsAffordable(t, k - 1);
      WaitEndsAtFirst(u, thread, turn, k - 1);
    }
  }

  // ---------------------------------------------------------------- requests before the wait

  /** The completions a request queues: notifications of a completed turn, projected. */
  predicate IsQueued(v: Value) {
    !IsIdentified(v) && IsTurnEnd(v)
  }

  function Projected(v: Value): Value {
    match TerminalTurn(v)
    case Ok(Some(turn)) => turn
    case _ => v
  }

  function Turns(heard: seq<Value>): seq<Value> {
    if heard == [] then []
    else
      var front, last := heard[..|heard| - 1], heard[|heard| - 1];
      Turns(front) + (if IsQueued(last) then [Projected(last)] else [])
  }

  /** Everything heard so far came from the stream, and the queue is its completions in order. */
  ghost predicate SessionInv(s: State, all: seq<Arrival>) {
    && Visible(all) == Frames(s.heard) + Visible(s.incoming)
    && s.frames == |s.heard| && |s.pending| <= MAX_PENDING
    && s.pending == Turns(s.heard)
    && AllProject(s.heard)
  }

  predicate AllProject(heard: seq<Value>) {
    forall v | v in heard && IsQueued(v) :: TerminalTurn(v).Ok? && TerminalTurn(v).value.Some?
  }

  lemma HeardOne(s: State, t: State, all: seq<Arrival>, v: Value)
    requires SessionInv(s, all) && NextFrame(s) == (t, Ok(v))
    ensures Visible(all) == Frames(t.heard) + Visible(t.incoming)
    ensures t.frames == |t.heard| && t.heard == s.heard + [v] && t.pending == s.pending
    ensures Turns(t.heard) == Turns(s.heard) + (if IsQueued(v) then [Projected(v)] else [])
  {
    hide IsQueued;
    hide AllProject;
    NextIsFirstVisible(s);
    assert Frames(t.heard) == Frames(s.heard) + [Frame(v)];
    assert t.heard[..|t.heard| - 1] == s.heard;
  }

  lemma OverhearKeepsInv(s: State, t: State, u: State, all: seq<Arrival>, v: Value)
    requires SessionInv(s, all) && NextFrame(s) == (t, Ok(v)) && Overhear(t, v) == Ok(u)
    ensures SessionInv(u, all)
  {
    hide NextFrame;
    hide Turns;
    hide IsOpaque;
    hide IsStatus;
    HeardOne(s, t, all, v);
  }

  /** A request returns only the reply that carries its own identifier; all it passed over had a method. */
  lemma {:induction false} AwaitReturnsOwnReply(s: State, all: seq<Arrival>, id: nat)
    requires SessionInv(s, all) && Await(s, id).1.Ok?
    ensures var (t, r) := Await(s, id);
      && SessionInv(t, all)
      && |s.heard| < |t.heard| && t.heard[..|s.heard|] == s.heard
      && IsReplyTo(t.heard[|t.heard| - 1], id, r.value)
      && forall i | |s.heard| <= i < |t.heard| - 1 :: Get(t.heard[i], "method").Some?
    decreases |s.incoming|
  {
    hide NextFrame;
    hide Turns;
    hide Visible;
    hide Overhear;
    var (t, r) := NextFrame(s);
    HeardOne(s, t, all, r.value);
    if Get(r.value, "method").None? {
      NotQueued(t, s, r.value);
    } else {
      var u := Overhear(t, r.value).value;
      OverhearKeepsInv(s, t, u, all, r.value);
      OverhearHears(t, r.value);
      assert |t.incoming| < |s.incoming|;
      AwaitReturnsOwnReply(u, all, id);
    }
  }

  lemma NotQueued(t: State, s: State, v: Value)
    requires Get(v, "method").None?
    ensures !IsQueued(v)
  {
  }

  lemma OverhearHears(t: State, v: Value)
    ensures Overhear(t, v).Ok? ==>
      Overhear(t, v).value.heard == t.heard && Overhear(t, v).value.incoming == t.incoming
  {
  }

  predicate IsReplyTo(v: Value, id: nat, result: Value) {
    && Get(v, "method").None?
    && AsU64(Get(v, "id")) == Some(id)
    && Get(v, "error").None?
    && Get(v, "result") == Some(result)
  }

  /** The driver after n requests that all got their replies. */
  function Session(all: seq<Arrival>, n: nat): Option<State> {
    if n == 0 then Some(Fresh(all))
    else
      match Session(all, n - 1)
      case None => None
      case Some(s) => (match Request(s) case (t, Ok(_)) => Some(t) case (_, Err(_)) => None)
  }

  lemma {:induction false} SessionKeepsInv(all: seq<Arrival>, n: nat)
    requires Session(all, n).Some?
    ensures SessionInv(Session(all, n).value, all)
  {
    if n == 0 {
      assert Visible(all) == Frames([]) + Visible(all);
    } else {
      hide Await;
      hide SessionInv;
      SessionKeepsInv(all, n - 1);
      var s := Session(all, n - 1).value;
      IdKeepsInv(s, all);
      AwaitReturnsOwnReply(s.(lastId := s.lastId + 1), all, s.lastId + 1);
    }
  }

  lemma IdKeepsInv(s: State, all: seq<Arrival>)
    ensures SessionInv(s, all) ==> SessionInv(s.(lastId := s.lastId + 1), all)
  {
  }

  /** The n-th request uses a number no earlier request used, and gets the reply with that number. */
  lemma {:induction false} RequestIdsAreFresh(all: seq<Arrival>, n: nat)
    requires Session(all, n).Some?
    ensures Session(all, n).value.lastId == n
  {
    if n > 0 {
      hide Await;
      RequestIdsAreFresh(all, n - 1);
      var s := Session(all, n - 1).value;
      AwaitKeepsId(s.(lastId := n), n);
      assert Request(s) == Await(s.(lastId := n), n);
    }
  }

  lemma {:induction false} AwaitKeepsId(s: State, id: nat)
    ensures Await(s, id).0.lastId == s.lastId
    decreases |s.incoming|
  {
    var (t, r) := NextFrame(s);
    if r.Ok? && Get(r.value, "method").Some? && Overhear(t, r.value).Ok? {
      AwaitKeepsId(Overhear(t, r.value).value, id);
    }
  }

  lemma OwnReply(all: seq<Arrival>, n: nat)
    requires Session(all, n).Some? && Request(Session(all, n).value).1.Ok?
    ensures var s := Session(all, n).value;
      var (t, r) := Request(s);
      && |s.heard| < |t.heard| && t.heard[..|s.heard|] == s.heard
      && IsReplyTo(t.heard[|t.heard| - 1], n + 1, r.value)
      && forall i | |s.heard| <= i < |t.heard| - 1 :: Get(t.heard[i], "method").Some?
  {
    hide Await;
    hide SessionInv;
    SessionKeepsInv(all, n);
    RequestIdsAreFresh(all, n);
    var s := Session(all, n).value;
    IdKeepsInv(s, all);
    AwaitReturnsOwnReply(s.(lastId := n + 1), all, n + 1);
  }

  // ---------------------------------------------------------------- the queue against the order of arrival

  /** Every matching frame is one the requests let go by: it carries an identifier. */
  predicate OnlyLost(vs: seq<Value>, thread: string, turn: string) {
    forall v | v in vs && Completes(v, thread, turn) :: IsIdentified(v)
  }

  lemma ProjectedMatch(v: Value, thread: string, turn: string)
    requires IsQueued(v) && TerminalTurn(v).Ok? && TerminalTurn(v).value.Some?
    ensures Completes(Projected(v), thread, turn) <==> Completes(v, thread, turn)
    ensures Status(Projected(v)) == Status(v)
  {
    ProjectionKeepsTheTurn(v, thread, turn);
    MatchMeaning(v, thread, turn);
    MatchMeaning(Projected(v), thread, turn);
  }

  /** No queued completion matches exactly when every matching frame heard was lost. */
  lemma {:induction false} QueueWithoutMatch(heard: seq<Value>, thread: string, turn: string)
    requires AllProject(heard)
    ensures (forall t | t in Turns(heard) :: !Completes(t, thread, turn)) <==> OnlyLost(heard, thread, turn)
  {
    hide Completes;
    hide TerminalTurn;
    hide Projected;
    if heard != [] {
      var front, last := heard[..|heard| - 1], heard[|heard| - 1];
      assert heard == front + [last];
      QueueWithoutMatch(front, thread, turn);
      MatchIsCompletion(last, thread, turn);
      if IsQueued(last) {
        ProjectedMatch(last, thread, turn);
        assert Projected(last) in Turns(heard);
      }
    }
  }

  lemma MatchIsCompletion(v: Value, thread: string, turn: string)
    ensures Completes(v, thread, turn) ==> IsTurnEnd(v)
  {
  }

  /** The first match in the queue is the first match heard that was not lost. */
  lemma {:induction false} QueuedFirst(heard: seq<Value>, j: nat, thread: string, turn: string) returns (k: nat)
    requires AllProject(heard) && j < |Turns(heard)| && Completes(Turns(heard)[j], thread, turn)
    requires forall i | 0 <= i < j :: !Completes(Turns(heard)[i], thread, turn)
    ensures k < |heard| && IsQueued(heard[k]) && Completes(heard[k], thread, turn)
    ensures Status(Turns(heard)[j]) == Status(heard[k])
    ensures OnlyLost(heard[..k], thread, turn)
    decreases |heard|
  {
    hide Completes;
    hide TerminalTurn;
    hide Projected;
    hide Status;
    hide IsQueued;
    var front, last := heard[..|heard| - 1], heard[|heard| - 1];
    assert heard == front + [last];
    if j < |Turns(front)| {
      assert forall i | 0 <= i <= j :: Turns(front)[i] == Turns(heard)[i];
      k := QueuedFirst(front, j, thread, turn);
      assert heard[..k] == front[..k];
    } else {
      k := |front|;
      ProjectedMatch(last, thread, turn);
      assert forall i | 0 <= i < j :: Turns(front)[i] == Turns(heard)[i];
      QueueWithoutMatch(front, thread, turn);
      assert heard[..k] == front;
    }
  }

  /** Arrival k completes the turn and every earlier completion of it was lost to a request. */
  ghost predicate IsAnswer(all: seq<Arrival>, heardCount: nat, k: nat, thread: string, turn: string) {
    var arrivals := Visible(all);
    && k < |arrivals| && arrivals[k].Frame? && Completes(arrivals[k].v, thread, turn)
    && (k < heardCount ==> !IsIdentified(arrivals[k].v))
    && forall i | 0 <= i < k ::
         && arrivals[i].Frame?
         && (Completes(arrivals[i].v, thread, turn) ==> i < heardCount && IsIdentified(arrivals[i].v))
  }

  lemma CandidateAt(s: State, all: seq<Arrival>, j: nat)
    requires SessionInv(s, all) && |s.pending| <= j < |Candidates(s)|
    ensures var k := |s.heard| + (j - |s.pending|);
      k < |Visible(all)| && Visible(all)[k] == Candidates(s)[j]
  {
    hide Turns;
    hide Visible;
    hide AllProject;
  }

  lemma HeardAt(s: State, all: seq<Arrival>, i: nat)
    requires SessionInv(s, all) && i < |s.heard|
    ensures i < |Visible(all)| && Visible(all)[i] == Frame(s.heard[i])
  {
    hide Turns;
    hide Visible;
    hide AllProject;
  }

  /** Arrival k is the answer, and the wait gets that far over the live stream. */
  ghost predicate IsReachable(all: seq<Arrival>, heardCount: nat, k: nat, thread: string, turn: string) {
    && IsAnswer(all, heardCount, k, thread, turn)
    && (k < heardCount || k < 10000)
    && forall i | heardCount <= i < k :: Passes(Visible(all)[i], thread, turn)
  }

  /**
   * After any number of answered requests, a wait that answers gives the status of the first completion of its
   * turn in arrival order, from before the wait or after it, leaving out those lost to requests.
   */
  lemma TurnIsCorrelated(all: seq<Arrival>, n: nat, thread: string, turn: string)
    requires Session(all, n).Some? && Wait(Session(all, n).value, thread, turn).1.Ok?
    ensures var s := Session(all, n).value;
      exists k: nat ::
        && IsReachable(all, |s.heard|, k, thread, turn)
        && EndsAs(Visible(all)[k].v, StatusOf(Wait(s, thread, turn).1))
  {
    hide EndsAs;
    hide StatusOf;
    hide IsTurnEnd;
    hide IsCompletion;
    hide IsMatch;
    hide Wait;
    hide Visible;
    hide Turns;
    hide Completes;
    hide Status;
    hide IsIdentified;
    hide IsQueued;
    hide AllProject;
    SessionKeepsInv(all, n);
    var s := Session(all, n).value;
    hide Session;
    WaitFindsFirst(s, thread, turn);
    var c := Candidates(s);
    var j: nat :| IsFirstMatch(c, j, thread, turn) && IsAffordable(s, j)
      && EndsAs(c[j].v, StatusOf(Wait(s, thread, turn).1));
    if j < |s.pending| {
      forall i | 0 <= i < j ensures !Completes(s.pending[i], thread, turn) {
        assert Passes(c[i], thread, turn);
      }
      var k := QueuedFirst(s.heard, j, thread, turn);
      MatchMeaning(c[j].v, thread, turn);
      MatchMeaning(s.heard[k], thread, turn);
      QueuedAnswer(s, all, k, thread, turn);
      assert IsReachable(all, |s.heard|, k, thread, turn);
    } else {
      var k := |s.heard| + (j - |s.pending|);
      CandidateAt(s, all, j);
      LiveAnswer(s, all, j, thread, turn);
      LivePasses(s, all, j, thread, turn);
      assert IsReachable(all, |s.heard|, k, thread, turn);
    }
  }

  lemma LivePasses(s: State, all: seq<Arrival>, j: nat, thread: string, turn: string)
    requires SessionInv(s, all) && |s.pending| <= j && IsFirstMatch(Candidates(s), j, thread, turn)
    ensures |s.heard| + (j - |s.pending|) <= |Visible(all)|
    ensures forall i | |s.heard| <= i < |s.heard| + (j - |s.pending|) :: Passes(Visible(all)[i], thread, turn)
  {
    hide SessionInv;
    hide Passes;
    hide Visible;
    CandidateAt(s, all, j);
    forall i | |s.heard| <= i < |s.heard| + (j - |s.pending|) ensures Passes(Visible(all)[i], thread, turn) {
      CandidateAt(s, all, |s.pending| + (i - |s.heard|));
      assert Passes(Candidates(s)[|s.pending| + (i - |s.heard|)], thread, turn);
    }
  }

  lemma {:induction false} TurnsAreCompletions(heard: seq<Value>)
    requires AllProject(heard)
    ensures forall t | t in Turns(heard) :: IsTurnEnd(t)
  {
    hide TerminalTurn;
    if heard != [] {
      var last := heard[|heard| - 1];
      TurnsAreCompletions(heard[..|heard| - 1]);
      assert last in heard;
      if IsQueued(last) {
        ProjectionKeepsTheTurn(last, "", "");
        MatchMeaning(Projected(last), "", "");
      }
    }
  }

  /** Where a queued completion stands in the queue. */
  lemma {:induction false} QueuePosition(heard: seq<Value>, k: nat)
    requires k < |heard| && IsQueued(heard[k])
    ensures var j := |Turns(heard[..k])|;
      j < |Turns(heard)| && Turns(heard)[..j] == Turns(heard[..k]) && Turns(heard)[j] == Projected(heard[k])
    decreases |heard|
  {
    hide IsQueued;
    hide Projected;
    var front := heard[..|heard| - 1];
    if k < |front| {
      assert front[..k] == heard[..k];
      QueuePosition(front, k);
    } else {
      assert heard[..k] == front;
    }
  }

  lemma QueuedIsFirst(s: State, all: seq<Arrival>, k: nat, thread: string, turn: string) returns (j: nat)
    requires SessionInv(s, all) && k < |s.heard| && IsQueued(s.heard[k]) && Completes(s.heard[k], thread, turn)
    requires OnlyLost(s.heard[..k], thread, turn)
    ensures j < |s.pending| && IsFirstMatch(Candidates(s), j, thread, turn)
    ensures Status(Candidates(s)[j].v) == Status(s.heard[k])
  {
    hide Completes;
    hide IsCompletion;
    hide TerminalTurn;
    hide Projected;
    hide Turns;
    hide Visible;
    hide IsQueued;
    var heard := s.heard;
    j := |Turns(heard[..k])|;
    QueuePosition(heard, k);
    assert heard[k] in heard && forall v | v in heard[..k] :: v in heard;
    QueueWithoutMatch(heard[..k], thread, turn);
    TurnsAreCompletions(heard);
    ProjectedMatch(heard[k], thread, turn);
    forall i | 0 <= i < j ensures Passes(Candidates(s)[i], thread, turn) {
      assert Turns(heard)[i] == Turns(heard)[..j][i];
      assert Turns(heard)[..j][i] in Turns(heard[..k]);
      assert Turns(heard)[i] in Turns(heard);
    }
  }

  lemma LiveIsFirst(s: State, all: seq<Arrival>, k: nat, thread: string, turn: string) returns (j: nat)
    requires SessionInv(s, all) && |s.heard| <= k && IsReachable(all, |s.heard|, k, thread, turn)
    ensures j == |s.pending| + (k - |s.heard|) && IsFirstMatch(Candidates(s), j, thread, turn)
    ensures Candidates(s)[j] == Visible(all)[k]
  {
    hide Completes;
    hide IsCompletion;
    hide Turns;
    hide IsIdentified;
    hide IsAnswerable;
    j := |s.pending| + (k - |s.heard|);
    CandidatesCount(s, all);
    CandidateAt(s, all, j);
    forall v | v in s.heard && Completes(v, thread, turn) ensures IsIdentified(v) {
      var i :| 0 <= i < |s.heard| && s.heard[i] == v;
      HeardAt(s, all, i);
    }
    QueueWithoutMatch(s.heard, thread, turn);
    TurnsAreCompletions(s.heard);
    hide Visible;
    forall i | 0 <= i < j ensures Passes(Candidates(s)[i], thread, turn) {
      if i < |s.pending| {
        assert Candidates(s)[i].v in s.pending;
      } else {
        CandidateAt(s, all, i);
      }
    }
  }

  lemma CandidatesCount(s: State, all: seq<Arrival>)
    requires SessionInv(s, all)
    ensures |Candidates(s)| == |s.pending| + (|Visible(all)| - |s.heard|) && |Visible(all)| >= |s.heard|
  {
    hide Turns;
    hide AllProject;
    hide Visible;
  }

  /** Conversely, a reachable answer ends the wait: with its status, or with the fault its status raises. */
  lemma TurnArrives(all: seq<Arrival>, n: nat, thread: string, turn: string, k: nat)
    requires Session(all, n).Some? && IsReachable(all, |Session(all, n).value.heard|, k, thread, turn)
    ensures EndsAs(Visible(all)[k].v, StatusOf(Wait(Session(all, n).value, thread, turn).1))
  {
    hide EndsAs;
    hide StatusOf;
    hide IsTurnEnd;
    hide IsCompletion;
    hide IsMatch;
    hide Wait;
    hide Visible;
    hide Turns;
    hide Completes;
    hide Status;
    hide IsIdentified;
    hide AllProject;
    SessionKeepsInv(all, n);
    var s := Session(all, n).value;
    hide Session;
    if k < |s.heard| {
      HeardAt(s, all, k);
      forall v | v in s.heard[..k] && Completes(v, thread, turn) ensures IsIdentified(v) {
        var i :| 0 <= i < k && s.heard[..k][i] == v;
        HeardAt(s, all, i);
      }
      MatchIsCompletion(s.heard[k], thread, turn);
      var j := QueuedIsFirst(s, all, k, thread, turn);
      MatchMeaning(Candidates(s)[j].v, thread, turn);
      MatchMeaning(s.heard[k], thread, turn);
      WaitEndsAtFirst(s, thread, turn, j);
    } else {
      var j := LiveIsFirst(s, all, k, thread, turn);
      WaitEndsAtFirst(s, thread, turn, j);
    }
  }

  lemma QueuedAnswer(s: State, all: seq<Arrival>, k: nat, thread: string, turn: string)
    requires SessionInv(s, all) && k < |s.heard| && IsQueued(s.heard[k]) && Completes(s.heard[k], thread, turn)
    requires OnlyLost(s.heard[..k], thread, turn)
    ensures IsAnswer(all, |s.heard|, k, thread, turn) && Visible(all)[k] == Frame(s.heard[k])
  {
    hide SessionInv;
    hide Completes;
    hide Visible;
    HeardAt(s, all, k);
    forall i | 0 <= i < k
      ensures Visible(all)[i].Frame? && (Completes(Visible(all)[i].v, thread, turn) ==> IsIdentified(Visible(all)[i].v))
    {
      HeardAt(s, all, i);
      assert s.heard[i] in s.heard[..k];
    }
  }

  lemma LiveAnswer(s: State, all: seq<Arrival>, j: nat, thread: string, turn: string)
    requires SessionInv(s, all) && |s.pending| <= j && IsFirstMatch(Candidates(s), j, thread, turn)
    ensures IsAnswer(all, |s.heard|, |s.heard| + (j - |s.pending|), thread, turn)
  {
    hide Completes;
    hide Visible;
    hide Turns;
    hide IsIdentified;
    hide AllProject;
    var c, a, h, p := Candidates(s), Visible(all), |s.heard|, |s.pending|;
    CandidateAt(s, all, j);
    forall t | t in Turns(s.heard) ensures !Completes(t, thread, turn) {
      var i :| 0 <= i < p && s.pending[i] == t;
      assert Passes(c[i], thread, turn);
    }
    QueueWithoutMatch(s.heard, thread, turn);
    forall i | 0 <= i < h + (j - p)
      ensures a[i].Frame? && (Completes(a[i].v, thread, turn) ==> i < h && IsIdentified(a[i].v))
    {
      if i < h {
        HeardAt(s, all, i);
        assert s.heard[i] in s.heard;
      } else {
        CandidateAt(s, all, p + (i - h));
        assert Passes(c[p + (i - h)], thread, turn);
      }
    }
  }

  /**
   * The answer is the first completion to arrive exactly when that one was not overheard by a request
   * while carrying an identifier.
   */
  lemma AnswerIsFirstArrival(all: seq<Arrival>, heardCount: nat, first: nat, k: nat, thread: string, turn: string)
    requires IsAnswer(all, heardCount, k, thread, turn)
    requires first < |Visible(all)| && Visible(all)[first].Frame? && Completes(Visible(all)[first].v, thread, turn)
    requires forall i | 0 <= i < first && Visible(all)[i].Frame? :: !Completes(Visible(all)[i].v, thread, turn)
    ensures k == first <==> !(first < heardCount && IsIdentified(Visible(all)[first].v))
  {
    hide Completes;
    hide IsIdentified;
    hide Visible;
  }

  // ---------------------------------------------------------------- where waits and requests disagree

  function CompletionFrame(id: Option<nat>, thread: string, turn: string, status: string): Value {
    var params := Object(map[
      "threadId" := Str(thread), "turn" := Object(map["id" := Str(turn), "status" := Str(status)])]);
    if id.Some? then Object(map["method" := Str("turn/completed"), "params" := params, "id" := Number(id.value)])
    else Object(map["method" := Str("turn/completed"), "params" := params])
  }

  /** The same completion frame with an identifier ends a wait but is passed over by a request. */
  lemma RequestsLoseIdentifiedCompletions(id: nat, thread: string, turn: string)
    ensures var v := CompletionFrame(Some(id), thread, turn, "completed");
      && Wait(Fresh([Frame(v)]), thread, turn).1 == Ok(TurnEnd("completed", 0))
      && Overhear(Fresh([]), v).Ok? && Overhear(Fresh([]), v).value.pending == []
  {
    var v := CompletionFrame(Some(id), thread, turn, "completed");
    CompletionMatches(Some(id), thread, turn, "completed");
    assert AsString(Get(v, "id")) == None;
    assert !IsAck(Frame(v));
  }

  function ReplyFrame(id: nat): Value {
    Object(map["id" := Number(id), "result" := Null])
  }

  /**
   * A whole session of the loss: the turn's completion arrives with an identifier before the reply to
   * the only request, and the wait reports a later one with another status.
   */
  lemma IdentifiedCompletionIsLost(thread: string, turn: string)
    ensures var all := [
        Frame(CompletionFrame(Some(7), thread, turn, "completed")), Frame(ReplyFrame(1)),
        Frame(CompletionFrame(None, thread, turn, "failed"))];
      && Visible(all) == all && Completes(all[0].v, thread, turn) && EndsAs(all[0].v, Ok("completed"))
      && Session(all, 1).Some?
      && Wait(Session(all, 1).value, thread, turn).1 == Ok(TurnEnd("failed", 0))
  {
    hide Wait;
    hide Completes;
    hide EndsAs;
    var first, reply := CompletionFrame(Some(7), thread, turn, "completed"), ReplyFrame(1);
    var second := CompletionFrame(None, thread, turn, "failed");
    CompletionMatches(Some(7), thread, turn, "completed");
    CompletionMatches(None, thread, turn, "failed");
    assert Get(first, "id") == Some(Number(7)) && Get(reply, "id") == Some(Number(1)) && Get(second, "id") == None;
    assert Get(reply, "method") == None && Get(reply, "error") == None && Get(reply, "result") == Some(Null);
    LossSession(first, reply, second);
    WaitsForOne(Session([Frame(first), Frame(reply), Frame(second)], 1).value, second, thread, turn, "failed");
  }

  lemma WaitsForOne(s: State, v: Value, thread: string, turn: string, status: string)
    requires s.pending == [] && s.incoming == [Frame(v)] && Get(v, "id") == None && s.frames < 10000
    requires Completes(v, thread, turn) && EndsAs(v, Ok(status))
    ensures Wait(s, thread, turn).1 == Ok(TurnEnd(status, s.notifications))
  {
    hide IsMatch;
    hide Status;
    hide EndsAs;
    MatchMeaning(v, thread, turn);
    TakesFirst(s, v, []);
    hide NextFrame;
    hide Completes;
  }

  lemma LossSession(first: Value, reply: Value, second: Value)
    requires Get(first, "id") == Some(Number(7)) && IsCompletion(first)
    requires Get(reply, "method").None? && Reply(reply, 1) == Ok(Null) && Get(second, "id") == None
    ensures var all := [Frame(first), Frame(reply), Frame(second)];
      && Visible(all) == all
      && Session(all, 1) == Some(State([], 1, 2, 0, [Number(7)], [Frame(second)], [first, reply]))
  {
    var all := [Frame(first), Frame(reply), Frame(second)];
    assert all[1..][1..] == [Frame(second)] && [Frame(second)][1..] == [];
    assert !IsAck(all[0]) && !IsAck(all[1]) && !IsAck(all[2]);
    assert Visible(all[1..][1..]) == [Frame(second)];
    assert Visible(all[1..]) == [Frame(reply), Frame(second)];
    assert Visible(all) == all;
    hide Visible;
    var start := Fresh(all).(lastId := 1);
    TakesFirst(start, first, [Frame(reply), Frame(second)]);
    var heard := start.(frames := 1, incoming := [Frame(reply), Frame(second)], heard := [] + [first]);
    AnswersIdentified(heard, first, 7);
    var answered := heard.(answered := [] + [Number(7)]);
    TakesFirst(answered, reply, [Frame(second)]);
    var replied := answered.(frames := 2, incoming := [Frame(second)], heard := [] + [first] + [reply]);
    hide NextFrame;
    hide Overhear;
    hide Reply;
    assert Await(answered, 1) == (replied, Ok(Null));
    assert Await(start, 1) == (replied, Ok(Null));
    assert replied == State([], 1, 2, 0, [Number(7)], [Frame(second)], [first, reply]);
    assert Session(all, 0) == Some(Fresh(all));
    assert Request(Fresh(all)) == (replied, Ok(Null));
    assert Session(all, 1) == Some(replied);
  }

  lemma TakesFirst(s: State, v: Value, rest: seq<Arrival>)
    requires s.incoming == [Frame(v)] + rest && !IsAck(Frame(v)) && s.frames < MAX_FRAMES
    ensures NextFrame(s) == (s.(frames := s.frames + 1, incoming := rest, heard := s.heard + [v]), Ok(v))
  {
  }

  lemma AnswersIdentified(s: State, v: Value, id: nat)
    requires Get(v, "id") == Some(Number(id)) && IsCompletion(v)
    ensures Overhear(s, v) == Ok(s.(answered := s.answered + [Number(id)]))
  {
  }

  lemma CompletionMatches(id: Option<nat>, thread: string, turn: string, status: string)
    ensures var v := CompletionFrame(id, thread, turn, status);
      && IsTurnEnd(v) && IsCompletion(v) && Completes(v, thread, turn) && IsMatch(v, thread, turn)
      && StringAt(v, ["params", "turn", "status"]) == Some(status)
      && (status in {"completed", "interrupted", "failed"} ==> EndsAs(v, Ok(status)))
  {
    var v := CompletionFrame(id, thread, turn, status);
    PathsOf(v, Get(v, "params").value, Get(Get(v, "params").value, "turn").value);
  }

  /** A completion of another turn with an unknown status fails a request and is passed over by a wait. */
  lemma MalformedNeighbour(other: string, thread: string, turn: string, status: string)
    requires IsProviderId(thread) && IsProviderId(other) && other != turn
    requires status !in {"completed", "interrupted", "failed"}
    ensures var v := CompletionFrame(None, thread, other, status);
      Overhear(Fresh([]), v) == Err(TurnStatusUnknown) && Passes(Frame(v), thread, turn)
  {
    hide IsOpaque;
    hide IsProviderId;
    OpaqueMeaning(thread);
    OpaqueMeaning(other);
    CompletionMatches(None, thread, other, status);
    var v := CompletionFrame(None, thread, other, status);
    PathsOf(v, Get(v, "params").value, Get(Get(v, "params").value, "turn").value);
  }
}
