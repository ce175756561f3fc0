// The batch decode coordinator of qwen3asr/batch.go: lanes that hand their decoder buffers to a
// coordinator, one token request at a time, over a message channel and one reply channel each.
// One step is one channel operation with the private work around it.

module Batch {
  import opened Wrappers

  type Token = nat
  type Text = seq<Token>

  /** What a lane does: from start, it asks for the token after some text, or is done, and goes
      on with the token it is given. choose is the model's choice under the lane's own limits. */
  datatype Job = Job(start: Text, asks: Text -> Option<Text>, resume: (Text, Token) -> Text, choose: Text -> Token)

  /** The lane after k tokens, decoding alone. */
  function Alone(j: Job, k: nat): Text {
    if k == 0 then j.start else
    match j.asks(Alone(j, k - 1))
    case None => Alone(j, k - 1)
    case Some(text) => j.resume(Alone(j, k - 1), j.choose(text))
  }

  datatype Message = Request(lane: nat) | Done(lane: nat, err: bool)

  datatype Where = Working | Waiting | Finished

  /** A lane: its private state, the token the coordinator left in its buffers, its reply
      channel of capacity one, and how many requests it made and replies it was sent. */
  datatype Lane = Lane(at: Where, local: Text, answers: nat, failed: bool, next: Token,
                       reply: Option<bool>, asked: nat, given: nat)

  /** Where the coordinator is: at its select, sending replies, or returned. */
  datatype Control = Select | Replying | Returned

  datatype State = State(lanes: seq<Lane>, messages: seq<Message>, pending: seq<nat>, alive: int,
                         first: bool, watching: bool, cancelled: bool, at: Control, live: set<nat>)

  /** capacity is the number of lanes opened, of which jobs uses the first. */
  datatype Call = Call(jobs: seq<Job>, capacity: nat) {
    predicate Valid() {
      |jobs| <= capacity
    }
  }

  function UpTo(n: nat): (r: set<nat>)
    ensures |r| == n && forall i: nat :: i in r <==> i < n
  {
    if n == 0 then {} else UpTo(n - 1) + {n - 1}
  }

  function Init(c: Call): State {
    var n := |c.jobs|;
    State(seq(n, i requires 0 <= i < n => Lane(Working, c.jobs[i].start, 0, false, 0, None, 0, 0)),
          [], [], n, false, true, false, if n == 0 then Returned else Select, UpTo(n))
  }

  /** broken says whether the evaluation that the step leads to fails. */
  datatype Step =
    | Cancel
    | Fail(i: nat)
    | Ask(i: nat)
    | GiveUp(i: nat)
    | OnItsOwn(i: nat)
    | Take(i: nat)
    | Finish(i: nat)
    | Receive(broken: bool)
    | Notice(broken: bool)
    | Send

  /** The lane is at work and has not failed. */
  predicate Busy(s: State, i: nat) {
    i < |s.lanes| && s.lanes[i].at == Working && !s.lanes[i].failed
  }

  /** Lanes are named by their index. */
  predicate Typed(c: Call, s: State) {
    && |s.lanes| == |c.jobs|
    && (forall r :: 0 <= r < |s.pending| ==> s.pending[r] < |s.lanes|)
    && (forall k :: 0 <= k < |s.messages| ==> s.messages[k].lane < |s.lanes|)
  }

  predicate Enabled(c: Call, s: State, e: Step) {
    Typed(c, s) &&
    match e
    case Cancel => true
    case Fail(i) => Busy(s, i)
    case Ask(i) => Busy(s, i) && |c.jobs| > 1 && c.jobs[i].asks(s.lanes[i].local).Some? && |s.messages| < c.capacity
    case GiveUp(i) => Busy(s, i) && |c.jobs| > 1 && c.jobs[i].asks(s.lanes[i].local).Some? && s.cancelled
    case OnItsOwn(i) => Busy(s, i) && |c.jobs| == 1 && c.jobs[i].asks(s.lanes[i].local).Some?
    case Take(i) => i < |s.lanes| && s.lanes[i].at == Waiting && s.lanes[i].reply.Some?
    case Finish(i) => i < |s.lanes| && s.lanes[i].at == Working && |s.messages| < c.capacity &&
        (s.lanes[i].failed || c.jobs[i].asks(s.lanes[i].local).None?)
    case Receive(_) => s.at == Select && s.messages != []
    case Notice(_) => s.at == Select && s.cancelled && s.watching
    case Send => s.at == Replying && s.pending != [] && s.pending[0] < |s.lanes| && s.lanes[s.pending[0]].reply.None?
  }

  /** The text a waiting lane asks about. */
  function Asked(c: Call, l: Lane, i: nat): Text
    requires i < |c.jobs|
  {
    match c.jobs[i].asks(l.local) case Some(text) => text case None => []
  }

  /** One evaluation over the rows of the pending lanes gives the next token of each. */
  function Decoded(c: Call, lanes: seq<Lane>, pending: seq<nat>): (next: seq<Token>)
    requires |lanes| == |c.jobs| && forall r :: 0 <= r < |pending| ==> pending[r] < |lanes|
    ensures |next| == |pending|
  {
    seq<Token>(|pending|, r requires 0 <= r < |pending| =>
      c.jobs[pending[r]].choose(Asked(c, lanes[pending[r]], pending[r])))
  }

  /** The tokens go to the lanes of their rows. */
  function Stored(lanes: seq<Lane>, pending: seq<nat>, next: seq<Token>): (r: seq<Lane>)
    requires |next| == |pending| && forall r :: 0 <= r < |pending| ==> pending[r] < |lanes|
    ensures |r| == |lanes|
    decreases |pending|
  {
    if pending == [] then lanes
    else Stored(lanes[pending[0] := lanes[pending[0]].(next := next[0])], pending[1..], next[1..])
  }

  /** The coordinator takes a message from the channel. */
  function Received(s: State): State
    requires s.messages != []
  {
    match s.messages[0]
    case Done(i, err) =>
      s.(messages := s.messages[1..], alive := s.alive - 1, live := s.live - {i}, first := s.first || err)
    case Request(i) => s.(messages := s.messages[1..], pending := s.pending + [i])
  }

  /** What follows a select: wait for more requests, or evaluate and begin to reply. */
  function Check(c: Call, s: State, broken: bool): State
    requires |s.lanes| == |c.jobs| && forall r :: 0 <= r < |s.pending| ==> s.pending[r] < |s.lanes|
  {
    if s.pending == [] || (|s.pending| < s.alive && !s.first) then
      s.(at := if s.alive > 0 then Select else Returned)
    else if s.first then s.(at := Replying)
    else if broken then s.(first := true, at := Replying)
    else s.(lanes := Stored(s.lanes, s.pending, Decoded(c, s.lanes, s.pending)), at := Replying)
  }

  function Do(c: Call, s: State, e: Step): State
    requires Enabled(c, s, e)
  {
    match e
    case Cancel => s.(cancelled := true)
    case Fail(i) => s.(lanes := s.lanes[i := s.lanes[i].(failed := true)])
    case Ask(i) => s.(lanes := s.lanes[i := s.lanes[i].(at := Waiting, asked := s.lanes[i].asked + 1)],
                      messages := s.messages + [Request(i)])
    case GiveUp(i) => s.(lanes := s.lanes[i := s.lanes[i].(failed := true)])
    case OnItsOwn(i) =>
      s.(lanes := s.lanes[i := Resumed(c.jobs[i], s.lanes[i], c.jobs[i].choose(Asked(c, s.lanes[i], i)))])
    case Take(i) =>
      var l := s.lanes[i].(at := Working, reply := None);
      s.(lanes := s.lanes[i := if s.lanes[i].reply.value then l.(failed := true) else Resumed(c.jobs[i], l, l.next)])
    case Finish(i) => s.(lanes := s.lanes[i := s.lanes[i].(at := Finished)],
                         messages := s.messages + [Done(i, s.lanes[i].failed)])
    case Receive(broken) =>
      Check(c, Received(s), broken)
    case Notice(broken) => Check(c, s.(first := true, watching := false), broken)
    case Send =>
      var i := s.pending[0];
      s.(lanes := s.lanes[i := s.lanes[i].(reply := Some(s.first), given := s.lanes[i].given + 1)],
         pending := s.pending[1..],
         at := if |s.pending| > 1 then Replying else if s.alive > 0 then Select else Returned)
  }

  function Resumed(j: Job, l: Lane, token: Token): Lane {
    l.(local := j.resume(l.local, token), answers := l.answers + 1)
  }

  predicate Distinct(s: seq<nat>) {
    forall a, b :: 0 <= a < b < |s| ==> s[a] != s[b]
  }

  /** The first message of lane i. */
  function Mail(messages: seq<Message>, i: nat): Option<Message> {
    if messages == [] then None
    else if messages[0].lane == i then Some(messages[0])
    else Mail(messages[1..], i)
  }

  /** No lane has two messages. */
  predicate OneEach(messages: seq<Message>) {
    messages == [] || (Mail(messages[1..], messages[0].lane).None? && OneEach(messages[1..]))
  }

  lemma {:induction false} MailSent(messages: seq<Message>, m: Message, i: nat)
    ensures Mail(messages + [m], i) ==
            if Mail(messages, i).None? && m.lane == i then Some(m) else Mail(messages, i)
  {
    if messages == [] {
      assert (messages + [m])[1..] == [];
    } else {
      assert (messages + [m])[1..] == messages[1..] + [m];
      MailSent(messages[1..], m, i);
    }
  }

  lemma {:induction false} OneEachSent(messages: seq<Message>, m: Message)
    requires OneEach(messages) && Mail(messages, m.lane).None?
    ensures OneEach(messages + [m])
  {
    if messages == [] {
      assert (messages + [m])[1..] == [];
    } else {
      assert (messages + [m])[1..] == messages[1..] + [m];
      MailSent(messages[1..], m, messages[0].lane);
      OneEachSent(messages[1..], m);
    }
  }

  /** The token in the lane's buffers is the one it asked for. */
  predicate Answered(j: Job, l: Lane) {
    j.asks(l.local).Some? && l.next == j.choose(j.asks(l.local).value)
  }

  /** One lane: its buffers have one owner, itself while it works, the coordinator from the
      request until the reply. decided says that the coordinator is replying with tokens. */
  predicate LaneOk(j: Job, l: Lane, live: bool, pending: bool, decided: bool, mail: Option<Message>) {
    && l.local == Alone(j, l.answers)
    && l.asked == l.given + (if l.at == Waiting && l.reply.None? then 1 else 0)
    && (pending ==> l.at == Waiting && l.reply.None? && mail.None? && (decided ==> Answered(j, l)))
    && match l.at
       case Working => live && mail.None? && l.reply.None?
       case Waiting =>
         && live && !l.failed && j.asks(l.local).Some?
         && (l.reply.None? ==> if pending then mail.None? else mail.Some? && mail.value.Request?)
         && (l.reply.Some? ==> mail.None? && (l.reply.value || Answered(j, l)))
       case Finished =>
         && l.reply.None?
         && (l.failed || j.asks(l.local).None?)
         && (if live then mail.Some? && mail.value.Done? && mail.value.err == l.failed else mail.None?)
  }

  predicate Decided(s: State) {
    s.at == Replying && !s.first
  }

  /** Every lane, and what the coordinator has noticed of the finished ones. */
  ghost predicate LanesOk(c: Call, s: State)
    requires |s.lanes| == |c.jobs|
  {
    forall i: nat | i < |s.lanes| ::
      && LaneOk(c.jobs[i], s.lanes[i], i in s.live, i in s.pending, Decided(s), Mail(s.messages, i))
      && (s.lanes[i].at == Finished && s.lanes[i].failed && i !in s.live ==> s.first)
  }

  ghost predicate Shape(c: Call, s: State) {
    && Typed(c, s) && Distinct(s.pending) && OneEach(s.messages)
    && (forall i :: i in s.live ==> i < |s.lanes|) && s.alive == |s.live|
  }

  predicate ControlOk(s: State) {
    match s.at
    case Select => s.alive > 0 && (s.pending == [] || (|s.pending| < s.alive && !s.first))
    case Replying => s.pending != []
    case Returned => s.alive == 0 && s.pending == []
  }

  ghost predicate Inv(c: Call, s: State) {
    Shape(c, s) && LanesOk(c, s) && ControlOk(s)
  }

  // Every step keeps the invariant.

  lemma InitHolds(c: Call)
    ensures Inv(c, Init(c))
  {
  }

  /** A step of one lane that touches no channel. */
  lemma LaneChanged(c: Call, s: State, i: nat, l: Lane)
    requires Inv(c, s) && i < |s.lanes|
    requires LaneOk(c.jobs[i], l, i in s.live, i in s.pending, Decided(s), Mail(s.messages, i))
    requires l.at != Finished
    ensures Inv(c, s.(lanes := s.lanes[i := l]))
  {
    hide LaneOk, Mail;
  }

  /** A lane sends a message. */
  lemma LaneSent(c: Call, s: State, l: Lane, m: Message)
    requires Inv(c, s) && m.lane < |s.lanes| && Mail(s.messages, m.lane).None? && m.lane in s.live
    requires LaneOk(c.jobs[m.lane], l, m.lane in s.live, m.lane in s.pending, Decided(s), Some(m))
    ensures Inv(c, s.(lanes := s.lanes[m.lane := l], messages := s.messages + [m]))
  {
    hide LaneOk, Mail;
    OneEachSent(s.messages, m);
    forall i: nat | i < |s.lanes|
      ensures Mail(s.messages + [m], i) == if i == m.lane then Some(m) else Mail(s.messages, i)
    {
      MailSent(s.messages, m, i);
    }
  }

  lemma StoredIs(c: Call, lanes: seq<Lane>, pending: seq<nat>, next: seq<Token>, i: nat)
    requires |next| == |pending| && (forall r :: 0 <= r < |pending| ==> pending[r] < |lanes|)
    requires Distinct(pending) && i < |lanes|
    ensures i !in pending ==> Stored(lanes, pending, next)[i] == lanes[i]
    ensures forall r :: 0 <= r < |pending| && pending[r] == i ==>
      Stored(lanes, pending, next)[i] == lanes[i].(next := next[r])
    decreases |pending|
  {
    if pending != [] {
      var more := lanes[pending[0] := lanes[pending[0]].(next := next[0])];
      StoredIs(c, more, pending[1..], next[1..], i);
      assert i in pending ==> pending[0] == i || i in pending[1..];
      forall r | 0 <= r < |pending| && pending[r] == i
        ensures Stored(lanes, pending, next)[i] == lanes[i].(next := next[r])
      {
        if r > 0 {
          assert pending[1..][r - 1] == i && pending[0] != pending[r];
        }
      }
    }
  }

  /** A lane that gets its token, or that waits for none. */
  lemma TokenStored(j: Job, l: Lane, live: bool, pending: bool, mail: Option<Message>, token: Token)
    requires LaneOk(j, l, live, pending, false, mail)
    requires pending && j.asks(l.local).Some? ==> token == j.choose(j.asks(l.local).value)
    ensures LaneOk(j, if pending then l.(next := token) else l, live, pending, true, mail)
    ensures pending ==> j.asks(l.local).Some?
  {
    hide Alone;
  }

  lemma StoredKeeps(c: Call, s: State, t: State)
    requires Shape(c, s) && LanesOk(c, s) && s.at == Select && s.pending != [] && !s.first
    requires t == s.(lanes := Stored(s.lanes, s.pending, Decoded(c, s.lanes, s.pending)), at := Replying)
    ensures Inv(c, t)
  {
    hide LaneOk, Mail, Stored, Decoded;
    var next := Decoded(c, s.lanes, s.pending);
    forall i: nat | i < |s.lanes|
      ensures LaneOk(c.jobs[i], t.lanes[i], i in t.live, i in t.pending, Decided(t), Mail(t.messages, i))
      ensures t.lanes[i].at == s.lanes[i].at && t.lanes[i].failed == s.lanes[i].failed
    {
      assert LaneOk(c.jobs[i], s.lanes[i], i in s.live, i in s.pending, Decided(s), Mail(s.messages, i));
      StoredIs(c, s.lanes, s.pending, next, i);
      var token := c.jobs[i].choose(Asked(c, s.lanes[i], i));
      TokenStored(c.jobs[i], s.lanes[i], i in s.live, i in s.pending, Mail(s.messages, i), token);
      if i in s.pending {
        var r :| 0 <= r < |s.pending| && s.pending[r] == i;
        DecodedIs(c, s.lanes, s.pending, r);
        assert t.lanes[i] == s.lanes[i].(next := token);
      }
    }
  }

  lemma CheckKeeps(c: Call, s: State, broken: bool)
    requires Shape(c, s) && LanesOk(c, s) && s.at == Select
    ensures Inv(c, Check(c, s, broken))
  {
    hide LaneOk, Mail, Stored, Decoded;
    if s.pending != [] && !(|s.pending| < s.alive && !s.first) && !s.first && !broken {
      StoredKeeps(c, s, Check(c, s, broken));
    }
  }

  lemma DecodedIs(c: Call, lanes: seq<Lane>, pending: seq<nat>, r: nat)
    requires |lanes| == |c.jobs| && (forall k :: 0 <= k < |pending| ==> pending[k] < |lanes|) && r < |pending|
    ensures Decoded(c, lanes, pending)[r] == c.jobs[pending[r]].choose(Asked(c, lanes[pending[r]], pending[r]))
  {
  }

  /** Taking a lane's message: a request is pending, a lane that is done is no longer alive. */
  lemma MessageTaken(j: Job, l: Lane, live: bool, pending: bool, m: Message)
    requires LaneOk(j, l, live, pending, false, Some(m))
    ensures LaneOk(j, l, live && m.Request?, pending || m.Request?, false, None)
    ensures live && !pending && (m.Done? ==> m.err == l.failed)
    ensures m.Request? ==> l.at == Waiting
  {
    hide Alone;
  }

  lemma ReceivedKeeps(c: Call, s: State)
    requires Inv(c, s) && s.at == Select && s.messages != []
    ensures Shape(c, Received(s)) && LanesOk(c, Received(s))
  {
    hide LaneOk, Mail;
    var m, t := s.messages[0], Received(s);
    var at := m.lane;
    MailTaken(s.messages, at);
    assert LaneOk(c.jobs[at], s.lanes[at], at in s.live, at in s.pending, Decided(s), Mail(s.messages, at));
    MessageTaken(c.jobs[at], s.lanes[at], at in s.live, at in s.pending, m);
    forall i: nat | i < |s.lanes|
      ensures LaneOk(c.jobs[i], t.lanes[i], i in t.live, i in t.pending, Decided(t), Mail(t.messages, i))
      ensures t.lanes[i].at == Finished && t.lanes[i].failed && i !in t.live ==> t.first
    {
      MailTaken(s.messages, i);
      assert LaneOk(c.jobs[i], s.lanes[i], i in s.live, i in s.pending, Decided(s), Mail(s.messages, i));
    }
  }

  lemma MailTaken(messages: seq<Message>, i: nat)
    requires messages != [] && OneEach(messages)
    ensures OneEach(messages[1..])
    ensures Mail(messages, messages[0].lane) == Some(messages[0])
    ensures Mail(messages[1..], i) == if messages[0].lane == i then None else Mail(messages, i)
  {
  }

  lemma SendKeeps(c: Call, s: State)
    requires Inv(c, s) && Enabled(c, s, Send)
    ensures Inv(c, Do(c, s, Send))
  {
    hide Alone, Mail;
    var i, t := s.pending[0], Do(c, s, Send);
    assert LaneOk(c.jobs[i], s.lanes[i], i in s.live, i in s.pending, Decided(s), Mail(s.messages, i));
    assert i !in t.pending;
    forall k: nat | k < |s.lanes| && k != i ensures k in t.pending <==> k in s.pending {
    }
  }

  lemma FailKeeps(c: Call, s: State, i: nat)
    requires Inv(c, s) && Busy(s, i)
    ensures Inv(c, s.(lanes := s.lanes[i := s.lanes[i].(failed := true)]))
  {
    hide Mail, Alone;
    LaneChanged(c, s, i, s.lanes[i].(failed := true));
  }

  lemma SentKeeps(c: Call, s: State, e: Step)
    requires Inv(c, s) && Enabled(c, s, e) && (e.Ask? || e.Finish?)
    ensures Inv(c, Do(c, s, e))
  {
    hide Mail, Alone;
    if e.Ask? {
      LaneSent(c, s, s.lanes[e.i].(at := Waiting, asked := s.lanes[e.i].asked + 1), Request(e.i));
    } else {
      LaneSent(c, s, s.lanes[e.i].(at := Finished), Done(e.i, s.lanes[e.i].failed));
    }
  }

  lemma ResumedKeeps(c: Call, s: State, e: Step)
    requires Inv(c, s) && Enabled(c, s, e) && (e.OnItsOwn? || e.Take?)
    ensures Inv(c, Do(c, s, e))
  {
    hide Mail, Alone;
    AloneNext(c.jobs[e.i], s.lanes[e.i].answers);
    LaneChanged(c, s, e.i, Do(c, s, e).lanes[e.i]);
  }

  lemma StepKeeps(c: Call, s: State, e: Step)
    requires Inv(c, s) && Enabled(c, s, e)
    ensures Inv(c, Do(c, s, e))
  {
    hide Mail, Check, LaneOk;
    match e
    case Cancel =>
    case Fail(i) => FailKeeps(c, s, i);
    case GiveUp(i) => FailKeeps(c, s, i);
    case Ask(_) => SentKeeps(c, s, e);
    case Finish(_) => SentKeeps(c, s, e);
    case OnItsOwn(_) => ResumedKeeps(c, s, e);
    case Take(_) => ResumedKeeps(c, s, e);
    case Receive(broken) =>
      ReceivedKeeps(c, s);
      CheckKeeps(c, Received(s), broken);
    case Notice(broken) => CheckKeeps(c, s.(first := true, watching := false), broken);
    case Send => SendKeeps(c, s);
  }

  lemma AloneNext(j: Job, k: nat)
    requires j.asks(Alone(j, k)).Some?
    ensures Alone(j, k + 1) == j.resume(Alone(j, k), j.choose(j.asks(Alone(j, k)).value))
  {
  }

  // Every interleaving.

  ghost predicate IsRun(c: Call, states: seq<State>, steps: seq<Step>) {
    && |states| == |steps| + 1
    && states[0] == Init(c)
    && forall t :: 0 <= t < |steps| ==>
         Enabled(c, states[t], steps[t]) && states[t + 1] == Do(c, states[t], steps[t])
  }

  lemma {:induction false} RunKeeps(c: Call, states: seq<State>, steps: seq<Step>, t: nat)
    requires IsRun(c, states, steps) && t < |states|
    ensures Inv(c, states[t])
  {
    hide Inv, Enabled, Do, Init;
    if t == 0 {
      InitHolds(c);
    } else {
      RunKeeps(c, states, steps, t - 1);
      StepKeeps(c, states[t - 1], steps[t - 1]);
    }
  }

  /** Pending lanes are alive, and wait; every request so far has had one reply, but for the one
      that a waiting lane still expects. */
  lemma OneReplyPerRequest(c: Call, s: State, i: nat)
    requires Inv(c, s) && i < |s.lanes|
    ensures i in s.pending ==> i in s.live && s.lanes[i].at == Waiting
    ensures s.lanes[i].asked == s.lanes[i].given + (if s.lanes[i].at == Waiting && s.lanes[i].reply.None? then 1 else 0)
  {
    assert LaneOk(c.jobs[i], s.lanes[i], i in s.live, i in s.pending, Decided(s), Mail(s.messages, i));
  }

  lemma {:induction false} MailOf(messages: seq<Message>, k: nat)
    requires OneEach(messages) && k < |messages|
    ensures Mail(messages, messages[k].lane) == Some(messages[k])
  {
    if k > 0 {
      MailOf(messages[1..], k - 1);
    }
  }

  lemma {:induction false} SendersBound(messages: seq<Message>, others: set<nat>)
    requires OneEach(messages) && forall k :: 0 <= k < |messages| ==> messages[k].lane in others
    ensures |messages| <= |others|
  {
    if messages != [] {
      forall k | 0 <= k < |messages| - 1 ensures messages[1..][k].lane in others - {messages[0].lane} {
        MailOf(messages[1..], k);
        assert messages[1..][k] == messages[k + 1];
      }
      SendersBound(messages[1..], others - {messages[0].lane});
    }
  }

  /** A lane at work never waits for room in the message channel. */
  lemma RoomToSend(c: Call, s: State, i: nat)
    requires c.Valid() && Inv(c, s) && i < |s.lanes| && s.lanes[i].at == Working
    ensures |s.messages| < c.capacity
  {
    var others := UpTo(|s.lanes|) - {i};
    forall k | 0 <= k < |s.messages| ensures s.messages[k].lane in others {
      MailOf(s.messages, k);
      assert LaneOk(c.jobs[i], s.lanes[i], i in s.live, i in s.pending, Decided(s), Mail(s.messages, i));
    }
    SendersBound(s.messages, others);
  }

  /** The coordinator never waits to send a reply. */
  lemma RoomToReply(c: Call, s: State)
    requires Inv(c, s) && s.at == Replying
    ensures Enabled(c, s, Send)
  {
    var i := s.pending[0];
    assert LaneOk(c.jobs[i], s.lanes[i], i in s.live, i in s.pending, Decided(s), Mail(s.messages, i));
  }

  lemma {:induction false} OneNotPending(live: set<nat>, pending: seq<nat>) returns (i: nat)
    requires |pending| < |live|
    ensures i in live && i !in pending
  {
    if pending == [] {
      i :| i in live;
    } else {
      i := OneNotPending(live - {pending[0]}, pending[1..]);
    }
  }

  /** Until every lane is done some step can be taken that is no failure and no cancellation. */
  lemma NeverStuck(c: Call, s: State) returns (e: Step)
    requires c.Valid() && Inv(c, s) && s.at != Returned
    ensures Enabled(c, s, e) && !e.Fail? && !e.Cancel? && !e.GiveUp?
  {
    hide Alone;
    if s.at == Replying {
      RoomToReply(c, s);
      e := Send;
    } else if s.messages != [] {
      e := Receive(false);
    } else {
      var i := OneNotPending(s.live, s.pending);
      assert LaneOk(c.jobs[i], s.lanes[i], i in s.live, i in s.pending, Decided(s), Mail(s.messages, i));
      assert Mail(s.messages, i).None?;
      if s.lanes[i].at == Waiting {
        e := Take(i);
      } else {
        RoomToSend(c, s, i);
        e := if s.lanes[i].failed || c.jobs[i].asks(s.lanes[i].local).None? then Finish(i)
             else if |c.jobs| > 1 then Ask(i) else OnItsOwn(i);
      }
    }
  }

  /** On return every lane is done and no message, request or reply is left. */
  lemma NothingLeft(c: Call, s: State)
    requires Inv(c, s) && s.at == Returned
    ensures s.messages == [] && s.pending == []
    ensures forall i :: 0 <= i < |s.lanes| ==> s.lanes[i].at == Finished && s.lanes[i].reply.None?
  {
    hide Alone;
    assert s.live == {};
    forall i: nat | i < |s.lanes|
      ensures s.lanes[i].at == Finished && s.lanes[i].reply.None? && Mail(s.messages, i).None?
    {
      assert LaneOk(c.jobs[i], s.lanes[i], i in s.live, i in s.pending, Decided(s), Mail(s.messages, i));
    }
    assert s.messages != [] ==> Mail(s.messages, s.messages[0].lane).Some?;
  }

  lemma {:induction false} AloneStops(j: Job, k: nat, n: nat)
    requires k <= n && j.asks(Alone(j, k)).None?
    ensures Alone(j, n) == Alone(j, k)
    decreases n
  {
    if k < n {
      AloneStops(j, k, n - 1);
    }
  }

  /** On return a lane that did not fail has done what it does alone, to the end; and when the
      call reports no error, that is every lane. */
  lemma EachAsAlone(c: Call, s: State, i: nat, n: nat)
    requires Inv(c, s) && s.at == Returned && i < |s.lanes|
    ensures !s.first ==> !s.lanes[i].failed
    ensures !s.lanes[i].failed ==> c.jobs[i].asks(s.lanes[i].local).None?
    ensures !s.lanes[i].failed && n >= s.lanes[i].answers ==> s.lanes[i].local == Alone(c.jobs[i], n)
  {
    NothingLeft(c, s);
    assert s.live == {};
    assert LaneOk(c.jobs[i], s.lanes[i], i in s.live, i in s.pending, Decided(s), Mail(s.messages, i));
    if !s.lanes[i].failed && n >= s.lanes[i].answers {
      AloneStops(c.jobs[i], s.lanes[i].answers, n);
    }
  }

  // What a batch is, and when it fails.

  /** Nothing fails in the step: no lane, no evaluation, and the call is not cancelled. */
  predicate Clean(e: Step) {
    match e
    case Fail(_) => false
    case GiveUp(_) => false
    case Cancel => false
    case Receive(broken) => !broken
    case Notice(_) => false
    case _ => true
  }

  ghost predicate NoneFailed(s: State) {
    && !s.first && !s.cancelled
    && (forall i :: 0 <= i < |s.lanes| ==> !s.lanes[i].failed && s.lanes[i].reply != Some(true))
    && forall k :: 0 <= k < |s.messages| ==> s.messages[k].Request? || !s.messages[k].err
  }

  lemma StoredFails(lanes: seq<Lane>, pending: seq<nat>, next: seq<Token>)
    requires |next| == |pending| && forall r :: 0 <= r < |pending| ==> pending[r] < |lanes|
    requires forall i :: 0 <= i < |lanes| ==> !lanes[i].failed && lanes[i].reply != Some(true)
    ensures var t := Stored(lanes, pending, next);
      forall i :: 0 <= i < |t| ==> !t[i].failed && t[i].reply != Some(true)
    decreases |pending|
  {
    if pending != [] {
      StoredFails(lanes[pending[0] := lanes[pending[0]].(next := next[0])], pending[1..], next[1..]);
    }
  }

  lemma CleanCheck(c: Call, s: State)
    requires Typed(c, s) && NoneFailed(s)
    ensures NoneFailed(Check(c, s, false))
  {
    hide Stored, Decoded;
    StoredFails(s.lanes, s.pending, Decoded(c, s.lanes, s.pending));
    var t := Check(c, s, false);
    assert t.lanes == s.lanes || t.lanes == Stored(s.lanes, s.pending, Decoded(c, s.lanes, s.pending));
    assert t.first == s.first && t.cancelled == s.cancelled && t.messages == s.messages;
  }

  lemma CleanStep(c: Call, s: State, e: Step)
    requires Enabled(c, s, e) && Clean(e) && NoneFailed(s)
    ensures NoneFailed(Do(c, s, e))
  {
    hide Check;
    if e.Receive? {
      assert NoneFailed(Received(s));
      CleanCheck(c, Received(s));
    }
  }

  /** In every interleaving in which nothing fails and the call is not cancelled, no error is reported
      and no lane fails. */
  lemma {:induction false} NoFalseErrors(c: Call, states: seq<State>, steps: seq<Step>, t: nat)
    requires IsRun(c, states, steps) && t < |states| && forall k :: 0 <= k < t ==> Clean(steps[k])
    ensures !states[t].first && forall i :: 0 <= i < |states[t].lanes| ==> !states[t].lanes[i].failed
    ensures NoneFailed(states[t])
  {
    hide Enabled, Do;
    if t > 0 {
      NoFalseErrors(c, states, steps, t - 1);
      CleanStep(c, states[t - 1], steps[t - 1]);
    }
  }

  lemma {:induction false} AllPending(live: set<nat>, pending: seq<nat>, i: nat)
    requires |pending| >= |live| && Distinct(pending) && i in live
    requires forall r :: 0 <= r < |pending| ==> pending[r] in live
    ensures i in pending
    decreases |pending|
  {
    if pending != [] && pending[0] != i {
      var rest := pending[1..];
      forall r | 0 <= r < |rest| ensures rest[r] in live - {pending[0]} {
        assert rest[r] == pending[r + 1];
      }
      AllPending(live - {pending[0]}, rest, i);
    }
  }

  /** One evaluation serves every lane that is still alive: tokens are decoded only when all of them
      wait for one. */
  lemma BatchIsWhole(c: Call, s: State, e: Step, i: nat)
    requires Inv(c, s) && Enabled(c, s, e) && s.at == Select
    ensures Do(c, s, e).at == Replying && !Do(c, s, e).first ==>
      (i in Do(c, s, e).live <==> i in Do(c, s, e).pending)
  {
    hide Stored, Decoded, LaneOk, Mail;
    var t := Do(c, s, e);
    StepKeeps(c, s, e);
    if t.at == Replying && !t.first {
      forall r | 0 <= r < |t.pending| ensures t.pending[r] in t.live {
        OneReplyPerRequest(c, t, t.pending[r]);
      }
      if i in t.live {
        AllPending(t.live, t.pending, i);
      }
    }
  }

  lemma CheckTouches(c: Call, s: State, broken: bool, i: nat)
    requires Shape(c, s) && i < |s.lanes|
    ensures var l := Check(c, s, broken).lanes;
      |l| == |s.lanes| && l[i].local == s.lanes[i].local && (l[i].next != s.lanes[i].next ==> i in s.pending)
  {
    hide Stored, Decoded;
    StoredIs(c, s.lanes, s.pending, Decoded(c, s.lanes, s.pending), i);
  }

  /** Only the owner of a lane's buffers changes them: the coordinator writes the next token of a
      lane only between its request and its reply, and the lane goes on only outside that time. */
  lemma OneOwner(c: Call, s: State, e: Step, i: nat)
    requires Inv(c, s) && Enabled(c, s, e) && i < |s.lanes|
    ensures |Do(c, s, e).lanes| == |s.lanes|
    ensures Do(c, s, e).lanes[i].next != s.lanes[i].next ==> s.lanes[i].at == Waiting && s.lanes[i].reply.None?
    ensures Do(c, s, e).lanes[i].local != s.lanes[i].local ==> s.lanes[i].at == Working || s.lanes[i].reply.Some?
    ensures e.Receive? || e.Notice? || e.Send? ==> Do(c, s, e).lanes[i].local == s.lanes[i].local
  {
    hide Alone, Check, Mail;
    match e {
      case Receive(broken) =>
        ReceivedKeeps(c, s);
        CheckTouches(c, Received(s), broken, i);
        assert LaneOk(c.jobs[i], s.lanes[i], i in Received(s).live, i in Received(s).pending, false,
          Mail(Received(s).messages, i));
      case Notice(broken) =>
        CheckTouches(c, s.(first := true, watching := false), broken, i);
        assert LaneOk(c.jobs[i], s.lanes[i], i in s.live, i in s.pending, Decided(s), Mail(s.messages, i));
      case _ =>
    }
  }
}
