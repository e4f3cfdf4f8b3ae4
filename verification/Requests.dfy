/**
 * What one request does with the stream: which arrivals it passes over and how, which one it takes for
 * its reply, and when a reply is an answer.
 */
module Requests {
  import opened Prelude
  import opened Control
  import opened Json
  import opened Rpc
  import opened TurnCorrelation

  // ---------------------------------------------------------------- what is passed over

  /** A notification that a turn is over. */
  predicate IsEnding(a: Arrival) {
    a.Frame? && IsTurnEnd(a.v) && !IsIdentified(a.v)
  }

  /** It names its thread and its turn as a provider would, and a status a turn can have. */
  predicate IsTold(v: Value, thread: string, turn: string, status: string) {
    && At(v, ["params", "threadId"]) == Some(Str(thread)) && IsProviderId(thread)
    && At(v, ["params", "turn", "id"]) == Some(Str(turn)) && IsProviderId(turn)
    && At(v, ["params", "turn", "status"]) == Some(Str(status))
    && status in {"completed", "interrupted", "failed"}
  }

  ghost predicate IsComplete(v: Value) {
    exists thread, turn, status :: IsTold(v, thread, turn, status)
  }

  ghost predicate IsPassedOver(a: Arrival) {
    a.Frame? && IsAnswerable(a.v) && (IsEnding(a) ==> IsComplete(a.v))
  }

  /** What is kept of an ending. */
  function Short(v: Value): Value {
    match (At(v, ["params", "threadId"]), At(v, ["params", "turn", "id"]), At(v, ["params", "turn", "status"]))
    case (Some(thread), Some(turn), Some(status)) =>
      Object(map[
        "method" := Str("turn/completed"),
        "params" := Object(map["threadId" := thread, "turn" := Object(map["id" := turn, "status" := status])])])
    case _ => Null
  }

  function Endings(c: seq<Arrival>): (r: seq<Value>)
    ensures |r| <= |c|
  {
    if c == [] then [] else (if IsEnding(c[0]) then [Short(c[0].v)] else []) + Endings(c[1..])
  }

  /** The identifiers of the requests of the server, each of which is answered. */
  function Asked(c: seq<Arrival>): seq<Value> {
    if c == [] then []
    else (if c[0].Frame? && IsIdentified(c[0].v) then [Get(c[0].v, "id").value] else []) + Asked(c[1..])
  }

  function Told(c: seq<Arrival>): nat {
    if c == [] then 0 else (if c[0].Frame? && !IsIdentified(c[0].v) then 1 else 0) + Told(c[1..])
  }

  function Bodies(c: seq<Arrival>): seq<Value> {
    if c == [] then [] else (if c[0].Frame? then [c[0].v] else []) + Bodies(c[1..])
  }

  lemma EndingMeaning(v: Value)
    requires IsTurnEnd(v)
    ensures TerminalTurn(v).Ok? <==> IsComplete(v)
    ensures TerminalTurn(v).Ok? ==> TerminalTurn(v).value == Some(Short(v))
  {
    hide IsProviderId;
    hide IsOpaque;
    if Get(v, "params").Some? && Get(Get(v, "params").value, "turn").Some? {
      var params := Get(v, "params").value;
      var inner := Get(params, "turn").value;
      InnerPaths(v, params, inner);
      if AsString(Get(params, "threadId")).Some? && AsString(Get(inner, "id")).Some? {
        OpaqueMeaning(AsString(Get(params, "threadId")).value);
        OpaqueMeaning(AsString(Get(inner, "id")).value);
        if AsString(Get(inner, "status")).Some? && TerminalTurn(v).Ok? {
          assert IsTold(v, AsString(Get(params, "threadId")).value, AsString(Get(inner, "id")).value,
                        AsString(Get(inner, "status")).value);
        }
      }
    } else {
      NoInnerPath(v);
    }
    hide At;
  }

  lemma InnerPaths(v: Value, params: Value, turn: Value)
    requires Get(v, "params") == Some(params) && Get(params, "turn") == Some(turn)
    ensures At(v, ["params", "threadId"]) == Get(params, "threadId")
    ensures At(v, ["params", "turn", "id"]) == Get(turn, "id")
    ensures At(v, ["params", "turn", "status"]) == Get(turn, "status")
  {
    PathStep(v, "params", ["threadId"], params);
    PathStep(v, "params", ["turn", "id"], params);
    PathStep(v, "params", ["turn", "status"], params);
    PathStep(params, "turn", ["id"], turn);
    PathStep(params, "turn", ["status"], turn);
    PathEnd(params, "threadId");
    PathEnd(turn, "id");
    PathEnd(turn, "status");
  }

  lemma NoInnerPath(v: Value)
    requires Get(v, "params").None? || Get(Get(v, "params").value, "turn").None?
    ensures At(v, ["params", "turn", "id"]) == None
  {
    if Get(v, "params").Some? {
      PathStep(v, "params", ["turn", "id"], Get(v, "params").value);
    }
  }

  /** One frame passed over: queued when it ends a turn, counted or answered in any case. */
  lemma OverhearMeaning(s: State, v: Value)
    ensures Overhear(s, v).Ok? <==>
      IsPassedOver(Frame(v)) && (IsEnding(Frame(v)) ==> |s.pending| < 32)
    ensures Overhear(s, v).Ok? ==> Overhear(s, v).value == s.(
      pending := s.pending + Endings([Frame(v)]), answered := s.answered + Asked([Frame(v)]),
      notifications := s.notifications + Told([Frame(v)]))
  {
    if IsTurnEnd(v) {
      EndingMeaning(v);
    }
    NotEndingHasNone(v);
    RespondMeaning(s, v);
    assert [Frame(v)][1..] == [] && s.pending + [] == s.pending;
    if IsEnding(Frame(v)) && TerminalTurn(v).Ok? {
      RespondMeaning(s.(pending := s.pending + [Short(v)]), v);
    }
    hide TerminalTurn;
    hide IsComplete;
    hide Short;
    hide IsTurnEnd;
    hide IsAnswerable;
    hide Respond;
    hide Asked;
    hide Told;
  }

  lemma RespondMeaning(s: State, v: Value)
    ensures Respond(s, v).Ok? <==> IsAnswerable(v)
    ensures Respond(s, v).Ok? ==> Respond(s, v).value == s.(
      answered := s.answered + Asked([Frame(v)]), notifications := s.notifications + Told([Frame(v)]))
  {
    assert [Frame(v)][1..] == [] && s.answered + [] == s.answered;
  }

  lemma NotEndingHasNone(v: Value)
    ensures !IsTurnEnd(v) ==> TerminalTurn(v) == Ok(None)
  {
  }

  // ---------------------------------------------------------------- the reply

  /** The first frame without a method, reached within the allowances. */
  ghost predicate IsReplyAt(s: State, k: nat) {
    var c := Visible(s.incoming);
    && k < |c| && s.frames + k < 10000
    && c[k].Frame? && Get(c[k].v, "method").None?
    && (forall i | 0 <= i < k :: IsPassedOver(c[i]))
    && (Endings(c[..k]) == [] || |s.pending| + |Endings(c[..k])| <= 32)
  }

  /** The reply to a number: its result, or the fault that tells why it is no answer. */
  predicate Replies(v: Value, id: nat, r: Result<Value, Fault>) {
    if Get(v, "id") != Some(Number(id)) || id > 0xFFFF_FFFF_FFFF_FFFF then r == Err(Uncorrelated)
    else if Get(v, "error").Some? then r == Err(RemoteRejected)
    else
      match Get(v, "result")
      case Some(result) => r == Ok(result)
      case None => r == Err(ResultMissing)
  }

  /** The state after taking the first k arrivals and the reply behind them. */
  ghost predicate IsAfter(s: State, t: State, k: nat) {
    var c := Visible(s.incoming);
    && k < |c| && Visible(t.incoming) == c[k + 1..]
    && t.pending == s.pending + Endings(c[..k])
    && t.answered == s.answered + Asked(c[..k])
    && t.notifications == s.notifications + Told(c[..k])
    && t.frames == s.frames + k + 1 && t.lastId == s.lastId
    && t.heard == s.heard + Bodies(c[..k + 1])
  }

  lemma Nothing(s: State)
    ensures s.pending + Endings([]) == s.pending && s.answered + Asked([]) == s.answered
    ensures s.notifications + Told([]) == s.notifications
  {
  }

  /** A frame without a method is the reply, and the wait for it is over. */
  lemma RepliesAtOnce(s: State, id: nat)
    ensures var (t, r) := NextFrame(s);
      r.Ok? && Get(r.value, "method").None? ==>
        && IsReplyAt(s, 0) && IsAfter(s, t, 0) && Visible(s.incoming)[0] == Frame(r.value)
        && Await(s, id).0 == t && Replies(r.value, id, Await(s, id).1)
  {
    hide NextFrame;
    NextIsFirstVisible(s);
    hide Visible;
    var (t, r) := NextFrame(s);
    if r.Ok? {
      var c := Visible(s.incoming);
      Nothing(s);
      assert c[..0] == [] && c[1..] == Visible(t.incoming) && c[..1] == [Frame(r.value)];
      assert [Frame(r.value)][1..] == [];
      assert Bodies(c[..1]) == [r.value];
      ReplyMeaning(r.value, id);
    }
  }

  lemma ReplyMeaning(v: Value, id: nat)
    ensures Replies(v, id, Reply(v, id))
  {
  }

  lemma FirstEndings(c: seq<Arrival>, rest: seq<Arrival>, k: nat)
    requires c != [] && c == [c[0]] + rest && k <= |rest|
    ensures Endings(c[..k + 1]) == Endings([c[0]]) + Endings(rest[..k])
  {
    hide IsEnding;
    hide IsIdentified;
    hide Short;
    assert c[..k + 1][1..] == rest[..k] && c[..k + 1][0] == c[0];
    assert [c[0]][1..] == [];
  }

  lemma FirstAsked(c: seq<Arrival>, rest: seq<Arrival>, k: nat)
    requires c != [] && c == [c[0]] + rest && k <= |rest|
    ensures Asked(c[..k + 1]) == Asked([c[0]]) + Asked(rest[..k])
  {
    hide IsEnding;
    hide IsIdentified;
    hide Short;
    assert c[..k + 1][1..] == rest[..k] && c[..k + 1][0] == c[0];
    assert [c[0]][1..] == [];
  }

  lemma FirstTold(c: seq<Arrival>, rest: seq<Arrival>, k: nat)
    requires c != [] && c == [c[0]] + rest && k <= |rest|
    ensures Told(c[..k + 1]) == Told([c[0]]) + Told(rest[..k])
  {
    hide IsEnding;
    hide IsIdentified;
    hide Short;
    assert c[..k + 1][1..] == rest[..k] && c[..k + 1][0] == c[0];
    assert [c[0]][1..] == [];
  }

  lemma FirstBodies(c: seq<Arrival>, rest: seq<Arrival>, k: nat)
    requires c != [] && c == [c[0]] + rest && k <= |rest|
    ensures Bodies(c[..k + 1]) == Bodies([c[0]]) + Bodies(rest[..k])
  {
    hide IsEnding;
    hide IsIdentified;
    hide Short;
    assert c[..k + 1][1..] == rest[..k] && c[..k + 1][0] == c[0];
    assert [c[0]][1..] == [];
  }

  /** Two states between which one frame was taken and passed over. */
  ghost predicate IsStep(s: State, u: State, v: Value) {
    var c := Visible(s.incoming);
    && c == [Frame(v)] + Visible(u.incoming) && Get(v, "method").Some? && s.frames < 10000
    && IsPassedOver(Frame(v)) && (IsEnding(Frame(v)) ==> |s.pending| < 32)
    && u.frames == s.frames + 1 && u.lastId == s.lastId && u.heard == s.heard + [v]
    && u.pending == s.pending + Endings([Frame(v)])
    && u.answered == s.answered + Asked([Frame(v)])
    && u.notifications == s.notifications + Told([Frame(v)])
  }

  lemma StepMeaning(s: State)
    ensures var (t, r) := NextFrame(s);
      r.Ok? && Get(r.value, "method").Some? && Overhear(t, r.value).Ok? ==>
        IsStep(s, Overhear(t, r.value).value, r.value)
  {
    hide NextFrame;
    NextIsFirstVisible(s);
    var (t, r) := NextFrame(s);
    if r.Ok? {
      OverhearMeaning(t, r.value);
    }
    hide Visible;
    hide IsPassedOver;
    hide Endings;
    hide Asked;
    hide Told;
    hide Overhear;
  }

  /** What holds after the second arrival holds after the first. */
  lemma AfterEarlier(s: State, u: State, v: Value, w: State, k: nat)
    requires IsStep(s, u, v) && IsAfter(u, w, k)
    ensures IsAfter(s, w, k + 1)
  {
    hide Visible;
    hide IsPassedOver;
    hide IsEnding;
    var c, rest := Visible(s.incoming), Visible(u.incoming);
    FirstEndings(c, rest, k);
    FirstAsked(c, rest, k);
    FirstTold(c, rest, k);
    FirstBodies(c, rest, k + 1);
    BodyOfOne(v);
    hide Endings;
    hide Asked;
    hide Told;
    hide Bodies;
    Regroup(s.pending, Endings([Frame(v)]), Endings(rest[..k]));
    Regroup(s.answered, Asked([Frame(v)]), Asked(rest[..k]));
    Regroup(s.heard, [v], Bodies(rest[..k + 1]));
    assert c[k + 1 + 1..] == rest[k + 1..];
  }

  lemma Regroup<T>(a: seq<T>, b: seq<T>, c: seq<T>)
    ensures a + b + c == a + (b + c)
  {
  }

  lemma BodyOfOne(v: Value)
    ensures Bodies([Frame(v)]) == [v]
  {
    assert [Frame(v)][1..] == [];
  }

  lemma ReplyEarlier(s: State, u: State, v: Value, k: nat)
    requires IsStep(s, u, v)
    ensures IsReplyAt(u, k) <==> IsReplyAt(s, k + 1)
    ensures k < |Visible(u.incoming)| ==> Visible(s.incoming)[k + 1] == Visible(u.incoming)[k]
  {
    hide Visible;
    hide IsPassedOver;
    var c, rest := Visible(s.incoming), Visible(u.incoming);
    if k <= |rest| {
      FirstEndings(c, rest, k);
      EndingsOfOne(Frame(v));
    }
    hide Endings;
    hide Asked;
    hide Told;
    hide IsEnding;
    assert forall i | 0 <= i < |rest| :: c[i + 1] == rest[i];
    if IsReplyAt(s, k + 1) {
      forall i | 0 <= i < k ensures IsPassedOver(rest[i]) {
        assert IsPassedOver(c[i + 1]);
      }
    }
  }

  lemma EndingsOfOne(a: Arrival)
    ensures |Endings([a])| == if IsEnding(a) then 1 else 0
  {
    assert [a][1..] == [];
  }

  // ---------------------------------------------------------------- one request

  lemma {:induction false} AwaitReplies(s: State, id: nat, k: nat)
    requires IsReplyAt(s, k)
    ensures IsAfter(s, Await(s, id).0, k) && Replies(Visible(s.incoming)[k].v, id, Await(s, id).1)
    decreases k
  {
    hide Visible;
    hide NextFrame;
    hide IsAfter;
    hide Replies;
    hide IsStep;
    var c := Visible(s.incoming);
    NextIsFirstVisible(s);
    RepliesAtOnce(s, id);
    assert k > 0 ==> IsPassedOver(c[0]);
    var (t, r) := NextFrame(s);
    if k > 0 {
      assert c == [c[0]] + Visible(t.incoming);
      FirstEndings(c, Visible(t.incoming), k - 1);
      EndingsOfOne(c[0]);
      OverhearMeaning(t, r.value);
      assert Overhear(t, r.value).Ok?;
      StepMeaning(s);
      var u := Overhear(t, r.value).value;
      hide Overhear;
      hide IsPassedOver;
      ReplyEarlier(s, u, r.value, k - 1);
      AwaitReplies(u, id, k - 1);
      AfterEarlier(s, u, r.value, Await(u, id).0, k - 1);
    }
    hide IsReplyAt;
  }

  lemma {:induction false} AwaitFinds(s: State, id: nat) returns (k: nat)
    requires Await(s, id).1.Ok?
    ensures IsReplyAt(s, k)
    decreases |s.incoming|
  {
    hide Visible;
    hide NextFrame;
    hide IsReplyAt;
    hide IsAfter;
    hide IsStep;
    hide Overhear;
    hide Reply;
    RepliesAtOnce(s, id);
    var (t, r) := NextFrame(s);
    k := 0;
    if Get(r.value, "method").Some? {
      StepMeaning(s);
      var u := Overhear(t, r.value).value;
      OverhearHears(t, r.value);
      var j := AwaitFinds(u, id);
      ReplyEarlier(s, u, r.value, j);
      k := j + 1;
    }
  }

  /** The reply at k carries the number of this request and this result. */
  ghost predicate IsAnsweredAt(s: State, k: nat, result: Value) {
    IsReplyAt(s, k) && Replies(Visible(s.incoming)[k].v, s.lastId + 1, Ok(result))
  }

  /**
   * A request succeeds exactly when the first frame without a method carries its number and a result and is
   * reached within the allowances; what it passed over is then queued, counted and answered in order.
   */
  lemma RequestIsExact(s: State, result: Value)
    ensures Request(s).1 == Ok(result) <==> exists k: nat :: IsAnsweredAt(s, k, result)
    ensures forall k: nat :: IsReplyAt(s, k) ==>
      && IsAfter(s.(lastId := s.lastId + 1), Request(s).0, k)
      && Replies(Visible(s.incoming)[k].v, s.lastId + 1, Request(s).1)
  {
    hide Visible;
    hide Await;
    hide IsAfter;
    var start := s.(lastId := s.lastId + 1);
    forall k: nat ensures IsReplyAt(s, k) <==> IsReplyAt(start, k) {}
    hide IsReplyAt;
    forall k: nat | IsReplyAt(s, k)
      ensures IsAfter(start, Request(s).0, k) && Replies(Visible(s.incoming)[k].v, s.lastId + 1, Request(s).1)
    {
      AwaitReplies(start, s.lastId + 1, k);
    }
    if Request(s).1 == Ok(result) {
      var k := AwaitFinds(start, s.lastId + 1);
      assert IsAnsweredAt(s, k, result);
    }
  }
}
