// What a conversation session of qwen3/chat.go says, with no cache and no drafts:
// the reference that Session.dfy is proved against.

module Conversation {
  import opened Wrappers

  type Token = nat
  type Bytes = seq<bv8>
  type State = seq<real>  // a post-normalization hidden state
  type Logits = seq<real>
  type Rng = nat

  datatype Role = System | User | Assistant | ToolResult

  /** The options of one reply. */
  datatype Options = Options(maxTokens: int, temperature: real, topK: int, topP: real, presence: real, seed: nat)

  datatype Call = Call(name: Bytes, arguments: Bytes)

  /** A tool on offer; its scaffold opens every call made to it. */
  datatype Tool = Tool(name: Bytes, scaffold: seq<Token>)

  /** The model and its chat template. The evaluator, the head, the sampler and the
      tokenizer are arbitrary functions. */
  datatype Config = Config(
    hidden: seq<Token> -> State,
    logits: State -> Logits,
    draw: (Options, Logits, Rng) -> (Token, Rng),
    seed: Options -> Rng,
    ends: State -> real,
    encode: Bytes -> Option<seq<Token>>,
    piece: Token -> Bytes,
    fullRune: Bytes -> bool,
    parse: Bytes -> Option<Call>,
    closer: Token -> bool,
    imEnd: Token,
    endText: Token,
    callOpen: Token,
    callClose: Token,
    newline: seq<Token>,
    answer: seq<Token>,
    resultEnd: seq<Token>,
    header: Role -> seq<Token>,
    tools: seq<Tool>,
    vocab: nat,
    limit: nat)
  {
    /** What newGenerator establishes about the template and the evaluator about its head. */
    ghost predicate Valid() {
      && |answer| > 0 && |newline| == 1 && limit > 0
      && (forall r :: |header(r)| > 0 && !closer(header(r)[|header(r)| - 1]))
      && (forall h :: |logits(h)| == vocab)
      && (forall o, l, r :: |l| == vocab ==> draw(o, l, r).0 < vocab)
      && (forall a: Bytes, b: Bytes :: fullRune(a) ==> fullRune(a + b))
    }

    predicate Ends(t: Token) {
      t == imEnd || t == endText
    }
  }

  /** There is such a model, with a tool whose scaffold holds no end token. */
  lemma ConfigExists() returns (c: Config)
    ensures c.Valid() && c.tools != [] && forall t :: t in c.tools ==> !HasEnd(c, t.scaffold)
  {
    c := Config(_ => [], _ => [0.0], (_, _, r) => (0, r), _ => 0, _ => 0.0, _ => None, _ => [], _ => true, _ => None,
                _ => false, 1, 2, 3, 4, [5], [6], [7], _ => [8], [Tool([], [9])], 1, 100);
  }

  predicate HasEnd(c: Config, s: seq<Token>) {
    exists i :: 0 <= i < |s| && c.Ends(s[i])
  }

  /** A reply being written: the conversation's tokens, what went to the writer, the text
      held back, the calls, the call being written, the tokens of the reply, the sampler. */
  datatype Turn = Turn(
    ids: seq<Token>,
    written: seq<Bytes>,
    text: Bytes,
    calls: seq<Call>,
    calling: bool,
    call: Bytes,
    callIDs: seq<Token>,
    seen: set<Token>,
    rng: Rng)

  /** Whether r begins a rune in UTF-8: it is no continuation byte. */
  predicate RuneStart(r: bv8) {
    r & 0xC0 != 0x80
  }

  /** The bytes of b before a rune that is cut off at its end, looking back from back bytes on. */
  function Complete(full: Bytes -> bool, b: Bytes, back: nat := 1): (n: nat)
    requires back > 0
    ensures n <= |b|
    decreases 4 - back
  {
    if back > 3 || back > |b| then |b|
    else if b[|b| - back] < 0x80 then |b|
    else if !RuneStart(b[|b| - back]) then Complete(full, b, back + 1)
    else if full(b[|b| - back..]) then |b|
    else |b| - back
  }

  /** The text grows by piece; what is complete of it is written, or all of it on a flush. */
  function Emit(c: Config, t: Turn, piece: Bytes, flush: bool): Turn {
    var text := t.text + piece;
    var cut := if flush then |text| else Complete(c.fullRune, text);
    if cut == 0 then t.(text := text)
    else t.(written := t.written + [text[..cut]], text := text[cut..])
  }

  function Record(c: Config, calls: seq<Call>, call: Bytes): seq<Call> {
    match c.parse(call)
    case None => calls
    case Some(x) => calls + [x]
  }

  /** Adds a token to the reply. */
  function Take(c: Config, t: Turn, id: Token): Turn {
    var u := t.(ids := t.ids + [id], seen := t.seen + {id});
    if id == c.callOpen then
      u.(calling := true, call := [], callIDs := [])
    else if id == c.callClose then
      if t.calling then u.(calling := false, call := [], callIDs := [], calls := Record(c, t.calls, t.call)) else u
    else if t.calling then
      u.(call := t.call + c.piece(id), callIDs := t.callIDs + [id])
    else
      Emit(c, u, c.piece(id), false)
  }

  /** The logits with those of the reply's tokens lowered. */
  function Penalized(l: Logits, seen: set<Token>, presence: real): (r: Logits)
    ensures |r| == |l|
  {
    seq(|l|, i requires 0 <= i < |l| => if i in seen then l[i] - presence else l[i])
  }

  /** Draws the token after the whole conversation, evaluated from scratch. */
  function Sample(c: Config, o: Options, t: Turn): (Token, Turn) {
    var (x, rng) := c.draw(o, Penalized(c.logits(c.hidden(t.ids)), t.seen, o.presence), t.rng);
    (x, t.(rng := rng))
  }

  /** The reply of a decoder without cache or drafts: one token at a time, at most room. */
  function Decode(c: Config, o: Options, t: Turn, room: nat): Turn
    decreases room, 1
  {
    if room == 0 then t else
      var (next, u) := Sample(c, o, t);
      Resume(c, o, u, next, room)
  }

  /** Goes on from a token already drawn. */
  function Resume(c: Config, o: Options, t: Turn, next: Token, room: nat): Turn
    requires room > 0
    decreases room, 0
  {
    if c.Ends(next) then t else Decode(c, o, Take(c, t, next), room - 1)
  }

  /** What checking a draft does: samples as one token at a time, while samples agree. */
  function Checked(c: Config, o: Options, t: Turn, draft: seq<Token>): (Turn, Token)
    decreases |draft|
  {
    var (x, u) := Sample(c, o, t);
    if draft == [] || x != draft[0] then (u, x) else Checked(c, o, Take(c, u, x), draft[1..])
  }

  lemma TakeIds(c: Config, t: Turn, id: Token)
    ensures Take(c, t, id).ids == t.ids + [id]
    ensures Take(c, t, id).rng == t.rng
  {
  }

  /** A check adds at most the draft to the conversation. */
  lemma {:induction false} CheckedGrows(c: Config, o: Options, t: Turn, draft: seq<Token>)
    ensures |t.ids| <= |Checked(c, o, t, draft).0.ids| <= |t.ids| + |draft|
    ensures Checked(c, o, t, draft).0.ids == t.ids + draft[..|Checked(c, o, t, draft).0.ids| - |t.ids|]
    decreases |draft|
  {
    var (x, u) := Sample(c, o, t);
    if draft != [] && x == draft[0] {
      var v := Take(c, u, x);
      CheckedGrows(c, o, v, draft[1..]);
      var r := Checked(c, o, v, draft[1..]).0;
      assert r.ids == v.ids + draft[1..][..|r.ids| - |v.ids|];
      assert [draft[0]] + draft[1..][..|r.ids| - |v.ids|] == draft[..|r.ids| - |t.ids|];
    }
  }

  /** A reply that checks draft after t, then goes on. */
  function Drafted(c: Config, o: Options, t: Turn, draft: seq<Token>, room: nat): Turn
    requires room > |draft|
  {
    CheckedGrows(c, o, t, draft);
    var (u, next) := Checked(c, o, t, draft);
    Resume(c, o, u, next, room - (|u.ids| - |t.ids|))
  }

  /** A draft without end tokens does not show in the reply. */
  lemma {:induction false} DraftInvisible(c: Config, o: Options, t: Turn, draft: seq<Token>, room: nat)
    requires room > |draft| && !HasEnd(c, draft)
    ensures Drafted(c, o, t, draft, room) == Decode(c, o, t, room)
    decreases |draft|
  {
    var (x, u) := Sample(c, o, t);
    if draft != [] && x == draft[0] {
      assert !c.Ends(draft[0]);
      var v := Take(c, u, x);
      forall i | 0 <= i < |draft[1..]| ensures !c.Ends(draft[1..][i]) {
        assert draft[1..][i] == draft[i + 1];
      }
      DraftInvisible(c, o, v, draft[1..], room - 1);
    }
  }

  /** A sampler that writes the draft and then other, whatever the logits. */
  function Scripted(draft: seq<Token>, other: Token): (Options, Logits, Rng) -> (Token, Rng) {
    (o: Options, l: Logits, r: Rng) => (if r < |draft| then draft[r] else other, r + 1)
  }

  /** Under the scripted sampler a check takes the whole draft, end tokens and all. */
  lemma {:induction false} ScriptedTakesAll(c: Config, o: Options, t: Turn, draft: seq<Token>, other: Token, at: nat)
    requires at <= |draft| && t.rng == at && c.draw == Scripted(draft, other)
    ensures |Checked(c, o, t, draft[at..]).0.ids| == |t.ids| + |draft| - at
    decreases |draft| - at
  {
    if at < |draft| {
      var (x, u) := Sample(c, o, t);
      assert x == draft[at..][0];
      assert draft[at..][1..] == draft[at + 1..];
      ScriptedTakesAll(c, o, Take(c, u, x), draft, other, at + 1);
    }
  }

  /** ... while Decode ends at the first end token among them. */
  lemma {:induction false} ScriptedStops(c: Config, o: Options, t: Turn, draft: seq<Token>, other: Token, at: nat,
      room: nat)
    requires at < |draft| && t.rng == at && c.draw == Scripted(draft, other) && room > |draft| - at
    requires HasEnd(c, draft[at..])
    ensures |Decode(c, o, t, room).ids| < |t.ids| + |draft| - at
    decreases |draft| - at
  {
    var (x, u) := Sample(c, o, t);
    assert x == draft[at];
    if !c.Ends(x) {
      var i :| 0 <= i < |draft[at..]| && c.Ends(draft[at..][i]);
      assert draft[at + 1..][i - 1] == draft[at..][i];
      ScriptedStops(c, o, Take(c, u, x), draft, other, at + 1, room - 1);
    }
  }

  lemma {:induction false} DecodeGrows(c: Config, o: Options, t: Turn, room: nat)
    ensures |t.ids| <= |Decode(c, o, t, room).ids| <= |t.ids| + room
    ensures Decode(c, o, t, room).ids[..|t.ids|] == t.ids
    decreases room
  {
    if room > 0 {
      var (x, u) := Sample(c, o, t);
      if !c.Ends(x) {
        DecodeGrows(c, o, Take(c, u, x), room - 1);
      }
    }
  }

  /** A draft is invisible to every sampler exactly when it holds no end token. */
  lemma DraftInvisibleIff(c: Config, o: Options, t: Turn, draft: seq<Token>, room: nat)
    requires room > |draft|
    ensures !HasEnd(c, draft) <==>
      forall d: (Options, Logits, Rng) -> (Token, Rng), r: Rng ::
        Drafted(c.(draw := d), o, t.(rng := r), draft, room) == Decode(c.(draw := d), o, t.(rng := r), room)
  {
    hide Take;
    if HasEnd(c, draft) {
      var i :| 0 <= i < |draft| && c.Ends(draft[i]);
      var d := Scripted(draft, c.imEnd);
      var k, u := c.(draw := d), t.(rng := 0);
      assert draft[0..] == draft;
      assert k.Ends(draft[i]);
      ScriptedTakesAll(k, o, u, draft, c.imEnd, 0);
      ScriptedStops(k, o, u, draft, c.imEnd, 0, room);
      CheckedGrows(k, o, u, draft);
      var (v, next) := Checked(k, o, u, draft);
      TakeIds(k, v, next);
      DecodeGrows(k, o, Take(k, v, next), room - |draft| - 1);
      assert |Drafted(k, o, u, draft, room).ids| > |Decode(k, o, u, room).ids|;
    } else {
      forall d: (Options, Logits, Rng) -> (Token, Rng), r: Rng
        ensures Drafted(c.(draw := d), o, t.(rng := r), draft, room) == Decode(c.(draw := d), o, t.(rng := r), room)
      {
        var k := c.(draw := d);
        assert forall x :: k.Ends(x) == c.Ends(x);
        DraftInvisible(k, o, t.(rng := r), draft, room);
      }
    }
  }

  /** The tokens a reply to a conversation of n tokens may add. */
  function Room(c: Config, n: nat, o: Options): int {
    var room := c.limit - n - 2;
    if 0 < o.maxTokens < room then o.maxTokens else room
  }

  /** A reply about to begin after ids. */
  function Begin(c: Config, ids: seq<Token>, o: Options): Turn {
    Turn(ids + c.answer, [], [], [], false, [], [], {}, c.seed(o))
  }

  /** A reply that is over: its text is flushed and the message ends. */
  function Finish(c: Config, t: Turn): Turn {
    Emit(c, t, [], true).(ids := t.ids + [c.imEnd] + c.newline)
  }

  /** The whole reply to ids, or nothing when the conversation fills the context. */
  function Reply(c: Config, ids: seq<Token>, o: Options): Option<Turn> {
    var t := Begin(c, ids, o);
    var room := Room(c, |t.ids|, o);
    if room <= 0 then None else Some(Finish(c, Decode(c, o, t, room)))
  }

  /** The message of role holding text, as it joins the conversation. */
  function Message(c: Config, role: Role, body: seq<Token>): seq<Token> {
    c.header(role) + body + (if role == ToolResult then c.resultEnd else []) + [c.imEnd] + c.newline
  }

  /** The conversation with an unfinished message, its end and the assistant's header. */
  function Probe(c: Config, ids: seq<Token>, role: Role, body: seq<Token>): seq<Token> {
    ids + c.header(role) + body + [c.imEnd] + c.newline + c.answer
  }

  /** How many tokens at the end of s are closing punctuation. */
  function Closers(c: Config, s: seq<Token>): (n: nat)
    ensures n <= |s|
    ensures forall i :: |s| - n <= i < |s| ==> c.closer(s[i])
    ensures n < |s| ==> !c.closer(s[|s| - n - 1])
  {
    if s == [] || !c.closer(s[|s| - 1]) then 0 else 1 + Closers(c, s[..|s| - 1])
  }

  /** The probability that a message whose words and punctuation end text ends there: that
      its words end before the closed closing tokens, and the message after them. */
  function EndsAt(c: Config, text: seq<Token>, closed: nat): real
    requires closed <= |text|
  {
    var p := c.ends(c.hidden(text[..|text| - closed]));
    if closed > 0 then p * c.ends(c.hidden(text)) else p
  }

  /** The probability that a message that holds body so far ends after it. */
  function EndsAfter(c: Config, before: seq<Token>, body: seq<Token>): real {
    EndsAt(c, before + body, Closers(c, body))
  }

  /** The text that what is judged ends with decides the judgment, whoever wrote it. */
  lemma {:induction false} ClosersOfBody(c: Config, before: seq<Token>, body: seq<Token>)
    requires |before| > 0 && !c.closer(before[|before| - 1])
    ensures Closers(c, before + body) == Closers(c, body)
  {
    if body == [] {
      assert before + body == before;
    } else {
      var init := body[..|body| - 1];
      assert (before + body)[..|before + body| - 1] == before + init;
      ClosersOfBody(c, before, init);
    }
  }

  lemma ClosersUnique(c: Config, s: seq<Token>, n: nat)
    requires n <= |s| && forall i :: |s| - n <= i < |s| ==> c.closer(s[i])
    requires n < |s| ==> !c.closer(s[|s| - n - 1])
    ensures Closers(c, s) == n
  {
  }

  /** A judgment depends only on the tokens judged, not on where the message starts in them. */
  lemma JudgmentOfTokens(c: Config, before: seq<Token>, body: seq<Token>)
    requires |before| > 0 && !c.closer(before[|before| - 1])
    ensures EndsAfter(c, before, body) == EndsAfter(c, [], before + body)
  {
    hide EndsAt, Closers;
    ClosersOfBody(c, before, body);
    assert [] + (before + body) == before + body;
  }

  /** How many tokens from the start of s are heard in n bytes. */
  function Heard(c: Config, s: seq<Token>, n: int): (k: nat)
    ensures k <= |s|
  {
    if s == [] || |c.piece(s[0])| > n then 0 else 1 + Heard(c, s[1..], n - |c.piece(s[0])|)
  }

  function Size(c: Config, s: seq<Token>): nat {
    if s == [] then 0 else |c.piece(s[0])| + Size(c, s[1..])
  }

  /** What is heard fits in n bytes, and with one token more it would not. */
  lemma {:induction false} HeardIsMost(c: Config, s: seq<Token>, n: nat)
    ensures var k := Heard(c, s, n); Size(c, s[..k]) <= n && (k < |s| ==> Size(c, s[..k + 1]) > n)
    decreases |s|
  {
    if s != [] {
      var m := n - |c.piece(s[0])|;
      var k := Heard(c, s, n);
      if m >= 0 {
        HeardIsMost(c, s[1..], m);
        assert s[..k][1..] == s[1..][..k - 1];
        if k < |s| {
          assert s[..k + 1][1..] == s[1..][..k];
        }
      } else {
        assert s[..1] == [s[0]];
      }
    }
  }

  /** What a session's callers can tell of it. */
  datatype Visible = Visible(ids: seq<Token>, reply: int)

  datatype Request = AddMessage(role: Role, text: Bytes) | Answer(o: Options) | Judge(role: Role, text: Bytes)
    | Prepare | Cut(n: int) | Rewind(mark: int)

  datatype Response = Done | Refused | Said(turn: Turn) | Judged(p: real)

  function Truncated(c: Config, v: Visible, n: int): seq<Token>
    requires 0 <= v.reply <= |v.ids|
  {
    var end := |v.ids| - 1 - |c.newline|;
    var said := if end < v.reply then [] else v.ids[v.reply..end];
    v.ids[..v.reply + Heard(c, said, n)] + [c.imEnd] + c.newline
  }

  /** One request of a session that keeps nothing evaluated. */
  function Serve(c: Config, v: Visible, r: Request): (Visible, Response)
    requires v.reply <= |v.ids|
  {
    match r
    case AddMessage(role, text) => (
      match c.encode(text)
      case None => (v, Refused)
      case Some(body) => (Visible(v.ids + Message(c, role, body), -1), Done))
    case Answer(o) => (
      match Reply(c, v.ids, o)
      case None => (Visible(v.ids + c.answer, |v.ids| + |c.answer|), Refused)
      case Some(t) => (Visible(t.ids, |v.ids| + |c.answer|), Said(t)))
    case Judge(role, text) => (
      match c.encode(text)
      case None => (v, Refused)
      case Some(body) =>
        if role == ToolResult || |Probe(c, v.ids, role, body)| + 4 > c.limit then (v, Refused)
        else (v, Judged(EndsAfter(c, v.ids + c.header(role), body))))
    case Prepare => (v, if |v.ids| + |c.answer| + 2 > c.limit then Refused else Done)
    case Cut(n) => if v.reply < 0 then (v, Refused) else (v.(ids := Truncated(c, v, n)), Done)
    case Rewind(mark) => if 0 <= mark <= |v.ids| then (Visible(v.ids[..mark], -1), Done) else (v, Refused)
  }

  /** A request never leaves the mark of the last reply beyond the conversation. */
  lemma ServeKeepsMark(c: Config, v: Visible, r: Request)
    requires v.reply <= |v.ids|
    ensures Serve(c, v, r).0.reply <= |Serve(c, v, r).0.ids|
  {
    if r.Answer? && Reply(c, v.ids, r.o).Some? {
      var t := Begin(c, v.ids, r.o);
      DecodeGrows(c, r.o, t, Room(c, |t.ids|, r.o));
    }
  }

  function ServeAll(c: Config, v: Visible, rs: seq<Request>): seq<Response>
    requires v.reply <= |v.ids|
    decreases |rs|
  {
    if rs == [] then [] else
      ServeKeepsMark(c, v, rs[0]);
      var (w, a) := Serve(c, v, rs[0]);
      [a] + ServeAll(c, w, rs[1..])
  }
}
