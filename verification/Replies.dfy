// What the reference of Conversation.dfy says, told by the tokens of the reply alone: which text
// is written, which calls are made, and which token comes next.

module Replies {
  import opened Conversation
  import opened Wrappers

  /** The tokens end inside a call: one was opened and none closed after it. */
  ghost predicate InCall(c: Config, s: seq<Token>) {
    exists j :: 0 <= j < |s| && s[j] == c.callOpen && forall k :: j < k < |s| ==> s[k] != c.callClose
  }

  /** The tokens after the last opening one. */
  function Since(c: Config, s: seq<Token>): seq<Token> {
    if s == [] || s[|s| - 1] == c.callOpen then [] else Since(c, s[..|s| - 1]) + [s[|s| - 1]]
  }

  function Pieces(c: Config, s: seq<Token>): Bytes {
    if s == [] then [] else Pieces(c, s[..|s| - 1]) + c.piece(s[|s| - 1])
  }

  /** The bytes of the tokens outside calls, in order. */
  ghost function Spoken(c: Config, s: seq<Token>): Bytes {
    if s == [] then [] else
      var init, last := s[..|s| - 1], s[|s| - 1];
      Spoken(c, init) + if last == c.callOpen || last == c.callClose || InCall(c, init) then [] else c.piece(last)
  }

  /** The calls that parse, each between an opening token and the closing one after it, in order. */
  ghost function Called(c: Config, s: seq<Token>): seq<Call> {
    if s == [] then [] else
      var init, last := s[..|s| - 1], s[|s| - 1];
      var call := c.parse(Pieces(c, Since(c, init)));
      Called(c, init) +
      if last == c.callClose && last != c.callOpen && InCall(c, init) && call.Some? then [call.value] else []
  }

  function Joined(ps: seq<Bytes>): Bytes {
    if ps == [] then [] else Joined(ps[..|ps| - 1]) + ps[|ps| - 1]
  }

  /** A rune of UTF-8 that is cut off: it begins, goes on, and is not full. */
  predicate Unfinished(full: Bytes -> bool, b: Bytes) {
    && 1 <= |b| <= 3 && b[0] >= 0x80 && RuneStart(b[0]) && !full(b)
    && forall i :: 1 <= i < |b| ==> !RuneStart(b[i])
  }

  lemma Continues(r: bv8)
    requires !RuneStart(r)
    ensures r >= 0x80
  {
  }

  lemma {:induction false} CompleteFrom(full: Bytes -> bool, b: Bytes, back: nat, n: nat)
    requires 0 < back <= 4 && n < |b|
    requires forall i :: |b| - back < i < |b| ==> i >= 0 && !RuneStart(b[i])
    ensures Complete(full, b, back) == n <==> n <= |b| - back && Unfinished(full, b[n..])
    decreases 4 - back
  {
    if back <= 3 && back <= |b| {
      var r := b[|b| - back];
      if !RuneStart(r) {
        Continues(r);
        CompleteFrom(full, b, back + 1, n);
        if n == |b| - back {
          assert b[n..][0] == r;
        }
      } else if n < |b| - back {
        assert b[n..][|b| - back - n] == r;
      } else if n == |b| - back {
        assert b[n..][0] == r;
        assert forall i :: 1 <= i < back ==> b[n..][i] == b[n + i];
      }
    }
  }

  /** What is complete is what comes before an unfinished rune at the end. */
  lemma CompleteIff(full: Bytes -> bool, b: Bytes, n: nat)
    requires n < |b|
    ensures Complete(full, b) == n <==> Unfinished(full, b[n..])
  {
    CompleteFrom(full, b, 1, n);
    if Unfinished(full, b[n..]) {
      assert n <= |b| - 1;
    }
  }

  /** What was held begins what is looked at next: nothing before it matters. */
  lemma TailAlone(full: Bytes -> bool, b: Bytes, p: Bytes)
    requires forall x: Bytes, y: Bytes :: full(x) ==> full(x + y)
    ensures var n := Complete(full, b); Complete(full, b + p) == n + Complete(full, b[n..] + p)
  {
    hide Complete, Unfinished;
    var n := Complete(full, b);
    var t := b[n..] + p;
    var m := Complete(full, t);
    var q := Complete(full, b + p);
    assert |t| == |b| + |p| - n;
    if m < |t| {
      CompleteIff(full, t, m);
      TailOfTail(b, p, n, m);
      CompleteIff(full, b + p, n + m);
    } else if q < |b + p| {
      CompleteIff(full, b + p, q);
      if q >= n {
        TailOfTail(b, p, n, q - n);
        CompleteIff(full, t, q - n);
      } else {
        Finished(full, b, p, q);
      }
    }
  }

  lemma TailOfTail(b: Bytes, p: Bytes, n: nat, m: nat)
    requires n <= |b| && m <= |b| - n + |p|
    ensures (b[n..] + p)[m..] == (b + p)[n + m..]
  {
  }

  /** No unfinished rune begins before what was held. */
  lemma Finished(full: Bytes -> bool, b: Bytes, p: Bytes, q: nat)
    requires forall x: Bytes, y: Bytes :: full(x) ==> full(x + y)
    requires q < Complete(full, b)
    ensures !Unfinished(full, (b + p)[q..])
  {
    hide Complete;
    var n := Complete(full, b);
    var u := (b + p)[q..];
    assert u[..|b| - q] == b[q..] && u == b[q..] + p;
    CompleteIff(full, b, q);
    if n < |b| {
      CompleteIff(full, b, n);
      assert u[n - q] == b[n..][0];
    }
  }

  /** What is held of all is the unfinished rune at its end, if there is one. */
  ghost predicate HeldBack(full: Bytes -> bool, all: Bytes, held: Bytes) {
    && |held| <= |all| && all[|all| - |held|..] == held
    && if held == [] then forall n :: 0 <= n < |all| ==> !Unfinished(full, all[n..]) else Unfinished(full, held)
  }

  lemma HeldIsTail(full: Bytes -> bool, all: Bytes)
    ensures HeldBack(full, all, all[Complete(full, all)..])
  {
    hide Complete, Unfinished;
    forall n | 0 <= n < |all| ensures Complete(full, all) == n <==> Unfinished(full, all[n..]) {
      CompleteIff(full, all, n);
    }
  }

  /** What a turn holds when the reply behind base is s. */
  ghost predicate Tells(c: Config, base: seq<Token>, s: seq<Token>, t: Turn) {
    && t.ids == base + s
    && Joined(t.written) + t.text == Spoken(c, s) && [] !in t.written
    && |t.text| == |Spoken(c, s)| - Complete(c.fullRune, Spoken(c, s))
    && t.calls == Called(c, s)
    && (t.calling <==> InCall(c, s)) && (t.calling ==> t.callIDs == Since(c, s) && t.call == Pieces(c, Since(c, s)))
    && (forall x :: x in t.seen <==> x in s)
  }

  lemma InCallNext(c: Config, s: seq<Token>, x: Token)
    ensures InCall(c, s + [x]) <==> x == c.callOpen || (x != c.callClose && InCall(c, s))
  {
    var u := s + [x];
    if x == c.callOpen {
      assert u[|s|] == c.callOpen;
    } else if InCall(c, s) && x != c.callClose {
      var j :| 0 <= j < |s| && s[j] == c.callOpen && forall k :: j < k < |s| ==> s[k] != c.callClose;
      assert u[j] == c.callOpen;
    }
    if InCall(c, u) && x != c.callOpen {
      var j :| 0 <= j < |u| && u[j] == c.callOpen && forall k :: j < k < |u| ==> u[k] != c.callClose;
      assert u[|s|] == x;
      assert s[j] == c.callOpen;
      assert forall k :: j < k < |s| ==> s[k] == u[k];
    }
  }

  lemma Next(c: Config, s: seq<Token>, x: Token)
    ensures Since(c, s + [x]) == if x == c.callOpen then [] else Since(c, s) + [x]
    ensures Pieces(c, s + [x]) == Pieces(c, s) + c.piece(x)
    ensures Pieces(c, []) == []
    ensures Spoken(c, s + [x]) ==
      Spoken(c, s) + if x == c.callOpen || x == c.callClose || InCall(c, s) then [] else c.piece(x)
    ensures Called(c, s + [x]) == Called(c, s) +
      if x == c.callClose && x != c.callOpen && InCall(c, s) && c.parse(Pieces(c, Since(c, s))).Some?
      then [c.parse(Pieces(c, Since(c, s))).value] else []
  {
    hide InCall;
    assert (s + [x])[..|s + [x]| - 1] == s;
  }

  lemma JoinedNext(ps: seq<Bytes>, p: Bytes)
    ensures Joined(ps + [p]) == Joined(ps) + p
  {
    assert (ps + [p])[..|ps + [p]| - 1] == ps;
  }

  /** What Emit does to the text. */
  lemma EmitTells(c: Config, t: Turn, all: Bytes, piece: Bytes, flush: bool)
    requires forall x: Bytes, y: Bytes :: c.fullRune(x) ==> c.fullRune(x + y)
    requires Joined(t.written) + t.text == all && [] !in t.written
    requires |t.text| == |all| - Complete(c.fullRune, all)
    ensures var u := Emit(c, t, piece, flush);
      && Joined(u.written) + u.text == all + piece && [] !in u.written
      && if flush then u.text == [] else |u.text| == |all + piece| - Complete(c.fullRune, all + piece)
  {
    var text := t.text + piece;
    var cut := if flush then |text| else Complete(c.fullRune, text);
    HeldTail(c.fullRune, Joined(t.written), t.text, all, piece);
    EmitIs(c, t, piece, flush, cut);
    Parts(Joined(t.written), t.text, piece, cut);
    hide *;
    if cut > 0 {
      JoinedNext(t.written, text[..cut]);
      NoneEmpty(t.written, text[..cut]);
    }
  }

  lemma Parts(w: Bytes, held: Bytes, piece: Bytes, cut: nat)
    requires cut <= |held + piece|
    ensures var text := held + piece;
      w + text == (w + held) + piece && (w + text[..cut]) + text[cut..] == (w + held) + piece && text[0..] == text
  {
    var text := held + piece;
    assert text[..cut] + text[cut..] == text;
    assert w + (text[..cut] + text[cut..]) == (w + text[..cut]) + text[cut..];
  }

  lemma NoneEmpty(ws: seq<Bytes>, p: Bytes)
    requires [] !in ws && p != []
    ensures [] !in ws + [p]
  {
  }

  lemma EmitIs(c: Config, t: Turn, piece: Bytes, flush: bool, cut: nat)
    requires cut == if flush then |t.text + piece| else Complete(c.fullRune, t.text + piece)
    ensures var (u, text) := (Emit(c, t, piece, flush), t.text + piece);
      cut <= |text| && u.text == text[cut..] &&
      u.written == if cut == 0 then t.written else t.written + [text[..cut]]
  {
    hide Complete;
    assert cut == 0 ==> (t.text + piece)[0..] == t.text + piece;
  }

  /** What is complete of all text is what is complete of what is looked at. */
  lemma HeldTail(full: Bytes -> bool, written: Bytes, held: Bytes, all: Bytes, piece: Bytes)
    requires forall x: Bytes, y: Bytes :: full(x) ==> full(x + y)
    requires written + held == all && |held| == |all| - Complete(full, all)
    ensures |held + piece| - Complete(full, held + piece) == |all + piece| - Complete(full, all + piece)
  {
    hide Complete;
    assert all[Complete(full, all)..] == held;
    TailAlone(full, all, piece);
  }

  lemma TakeTells(c: Config, base: seq<Token>, s: seq<Token>, t: Turn, x: Token)
    requires c.Valid() && Tells(c, base, s, t)
    ensures Tells(c, base, s + [x], Take(c, t, x))
  {
    hide Complete, Emit, Spoken, Called, Since, Pieces, Joined;
    InCallNext(c, s, x);
    Next(c, s, x);
    Next(c, Since(c, s), x);
    hide InCall;
    var u := t.(ids := t.ids + [x], seen := t.seen + {x});
    EmitTells(c, u, Spoken(c, s), c.piece(x), false);
    EmitRest(c, u, c.piece(x), false);
    assert Spoken(c, s) + [] == Spoken(c, s) && Called(c, s) + [] == Called(c, s);
    assert base + s + [x] == base + (s + [x]);
  }

  // Which token comes next.

  /** The logits, lowered at the tokens that the reply already has. */
  function Lowered(l: Logits, s: seq<Token>, presence: real): (r: Logits)
    ensures |r| == |l| && forall i :: 0 <= i < |l| ==> r[i] == l[i] - (if i in s then presence else 0.0)
  {
    seq(|l|, i requires 0 <= i < |l| => l[i] - (if i in s then presence else 0.0))
  }

  /** The sampler's state when the reply behind base is s: it drew each token of s, one by one. */
  function Sampler(c: Config, o: Options, base: seq<Token>, s: seq<Token>): Rng
    decreases |s|, 0
  {
    if s == [] then c.seed(o) else Drawn(c, o, base, s[..|s| - 1]).1
  }

  /** What it draws then: from the logits after all tokens, lowered at those of the reply. */
  function Drawn(c: Config, o: Options, base: seq<Token>, s: seq<Token>): (Token, Rng)
    decreases |s|, 1
  {
    c.draw(o, Lowered(c.logits(c.hidden(base + s)), s, o.presence), Sampler(c, o, base, s))
  }

  /** Every token of s was drawn, none of them ends a reply. */
  ghost predicate IsDrawn(c: Config, o: Options, base: seq<Token>, s: seq<Token>) {
    forall k :: 0 <= k < |s| ==> s[k] == Drawn(c, o, base, s[..k]).0 && !c.Ends(s[k])
  }

  lemma {:induction false} DecodeTells(c: Config, o: Options, base: seq<Token>, s: seq<Token>, t: Turn, room: nat)
    returns (all: seq<Token>)
    requires c.Valid() && Tells(c, base, s, t) && t.rng == Sampler(c, o, base, s) && IsDrawn(c, o, base, s)
    ensures s <= all && Tells(c, base, all, Decode(c, o, t, room)) && IsDrawn(c, o, base, all)
    ensures |all| <= |s| + room && (|all| == |s| + room || c.Ends(Drawn(c, o, base, all).0))
    decreases room
  {
    hide Tells, Take;
    all := s;
    if room > 0 {
      SampleIsDrawn(c, o, base, s, t);
      var (x, u) := Sample(c, o, t);
      RngApart(c, base, s, t, u.rng);
      if !c.Ends(x) {
        TakeTells(c, base, s, u, x);
        TakeIds(c, u, x);
        assert (s + [x])[..|s|] == s && (s + [x])[..|s + [x]| - 1] == s;
        assert forall k :: 0 <= k < |s| ==> (s + [x])[..k] == s[..k];
        all := DecodeTells(c, o, base, s + [x], Take(c, u, x), room - 1);
      }
    }
  }

  lemma RngApart(c: Config, base: seq<Token>, s: seq<Token>, t: Turn, r: Rng)
    requires Tells(c, base, s, t)
    ensures Tells(c, base, s, t.(rng := r))
  {
  }

  lemma SampleIsDrawn(c: Config, o: Options, base: seq<Token>, s: seq<Token>, t: Turn)
    requires Tells(c, base, s, t) && t.rng == Sampler(c, o, base, s)
    ensures Sample(c, o, t) == (Drawn(c, o, base, s).0, t.(rng := Drawn(c, o, base, s).1))
  {
    var l := c.logits(c.hidden(t.ids));
    assert Penalized(l, t.seen, o.presence) == Lowered(l, s, o.presence);
  }

  /** The tokens of a whole reply to ids. */
  function Tokens(c: Config, ids: seq<Token>, t: Turn): seq<Token>
    requires |ids| + |c.answer| + 1 + |c.newline| <= |t.ids|
  {
    t.ids[|ids| + |c.answer|..|t.ids| - 1 - |c.newline|]
  }

  /** A whole reply, whatever the model: it is refused exactly when fewer than three tokens are left
      of the context; what is written is the text of its tokens outside calls, in pieces none of
      which is empty, and nothing is held back; its calls are those its tokens make; every token was
      drawn after those before it; and it ends where the room does or an end token is drawn. */
  lemma ReplyTells(c: Config, ids: seq<Token>, o: Options)
    requires c.Valid()
    ensures Reply(c, ids, o).None? <==> |ids| + |c.answer| + 2 >= c.limit
    ensures Reply(c, ids, o).Some? ==>
      var t, base := Reply(c, ids, o).value, ids + c.answer;
      && |base| + 1 + |c.newline| <= |t.ids|
      && var s := Tokens(c, ids, t);
      && t.ids == base + s + [c.imEnd] + c.newline
      && Joined(t.written) == Spoken(c, s) && t.text == [] && [] !in t.written
      && t.calls == Called(c, s)
      && IsDrawn(c, o, base, s)
      && |base| + |s| + 2 <= c.limit && (o.maxTokens > 0 ==> |s| <= o.maxTokens)
      && (|base| + |s| + 2 == c.limit || |s| == o.maxTokens || c.Ends(Drawn(c, o, base, s).0))
  {
    hide Emit, Complete, IsDrawn, Drawn, Decode;
    var t, base := Begin(c, ids, o), ids + c.answer;
    var room := Room(c, |t.ids|, o);
    if room > 0 {
      BeginTells(c, ids, o);
      var s := DecodeTells(c, o, base, [], t, room);
      FinishTells(c, base, s, Decode(c, o, t, room));
      var u := Reply(c, ids, o).value;
      assert u.ids == base + s + [c.imEnd] + c.newline;
      assert Tokens(c, ids, u) == s;
    }
  }

  lemma BeginTells(c: Config, ids: seq<Token>, o: Options)
    ensures var t := Begin(c, ids, o);
      Tells(c, ids + c.answer, [], t) && t.rng == Sampler(c, o, ids + c.answer, []) && IsDrawn(c, o, ids + c.answer, [])
  {
    assert ids + c.answer + [] == ids + c.answer;
  }

  lemma FinishTells(c: Config, base: seq<Token>, s: seq<Token>, t: Turn)
    requires c.Valid() && Tells(c, base, s, t)
    ensures var u := Finish(c, t);
      && u.ids == base + s + [c.imEnd] + c.newline
      && Joined(u.written) == Spoken(c, s) && u.text == [] && [] !in u.written
      && u.calls == Called(c, s)
  {
    hide Complete, Spoken, Called, Joined;
    EmitTells(c, t, Spoken(c, s), [], true);
    var u := Finish(c, t);
    assert Spoken(c, s) + [] == Spoken(c, s) && Joined(u.written) + [] == Joined(u.written);
    EmitRest(c, t, [], true);
  }

  lemma EmitRest(c: Config, t: Turn, piece: Bytes, flush: bool)
    ensures var u := Emit(c, t, piece, flush); u == t.(written := u.written, text := u.text)
  {
  }

  /** While a reply is written, only an unfinished rune at the end of its text is held back, so
      that the rest is heard at once. */
  lemma DecodeHoldsBack(c: Config, ids: seq<Token>, o: Options, room: nat) returns (s: seq<Token>)
    requires c.Valid()
    ensures var t := Decode(c, o, Begin(c, ids, o), room);
      && t.ids == ids + c.answer + s
      && Joined(t.written) + t.text == Spoken(c, s) && HeldBack(c.fullRune, Spoken(c, s), t.text)
  {
    hide Complete, Decode, Spoken, HeldBack, Joined;
    BeginTells(c, ids, o);
    s := DecodeTells(c, o, ids + c.answer, [], Begin(c, ids, o), room);
    var t := Decode(c, o, Begin(c, ids, o), room);
    HeldIsTail(c.fullRune, Spoken(c, s));
    assert Spoken(c, s)[Complete(c.fullRune, Spoken(c, s))..] == t.text;
  }

  // The other requests.

  /** A message joins the conversation whole, between its header and its end; text that has no tokens
      is refused and changes nothing. */
  lemma AddTells(c: Config, v: Visible, role: Role, text: Bytes)
    requires v.reply <= |v.ids|
    ensures var (w, a) := Serve(c, v, AddMessage(role, text));
      if c.encode(text).None? then w == v && a == Refused else
        var end := (if role == ToolResult then c.resultEnd else []) + [c.imEnd] + c.newline;
        && a == Done && w.reply == -1 && v.ids <= w.ids
        && w.ids[|v.ids|..] == c.header(role) + c.encode(text).value + end
  {
    if c.encode(text).Some? {
      var m := Message(c, role, c.encode(text).value);
      assert (v.ids + m)[|v.ids|..] == m;
      assert m == c.header(role) + c.encode(text).value +
        ((if role == ToolResult then c.resultEnd else []) + [c.imEnd] + c.newline);
    }
  }

  /** The probability that a message that goes on as text ends there: that its words end where its
      closing punctuation begins, and the message after it; refused for tool results and where no room
      is left. */
  lemma JudgeTells(c: Config, v: Visible, role: Role, text: Bytes) returns (k: nat)
    requires c.Valid() && v.reply <= |v.ids|
    ensures var (w, a) := Serve(c, v, Judge(role, text));
      && w == v
      && (a == Refused || a.Judged?)
      && (a == Refused <==> (c.encode(text).None? || role == ToolResult ||
            |v.ids| + |c.header(role)| + |c.encode(text).value| + |c.answer| + 6 > c.limit))
      && (a.Judged? ==>
            var body := c.encode(text).value;
            var all := v.ids + c.header(role) + body;
            && k <= |body| && (forall i :: |body| - k <= i < |body| ==> c.closer(body[i]))
            && (k < |body| ==> !c.closer(body[|body| - k - 1]))
            && a.p == (if k > 0 then c.ends(c.hidden(all[..|all| - k])) else 1.0) * c.ends(c.hidden(all)))
  {
    k := if c.encode(text).Some? then Closers(c, c.encode(text).value) else 0;
    if c.encode(text).Some? {
      var all := v.ids + c.header(role) + c.encode(text).value;
      assert all[..|all| - 0] == all;
    }
  }

  /** A reply that is cut keeps the most tokens whose bytes fit what was heard, and ends there. */
  lemma CutTells(c: Config, v: Visible, n: int) returns (k: nat)
    requires v.reply <= |v.ids|
    ensures var (w, a) := Serve(c, v, Cut(n));
      && (a == Refused <==> v.reply < 0) && (a == Refused ==> w == v)
      && (a != Refused ==>
            var end := |v.ids| - 1 - |c.newline|;
            var said := if end < v.reply then [] else v.ids[v.reply..end];
            && a == Done && w.reply == v.reply && k <= |said|
            && w.ids == v.ids[..v.reply] + said[..k] + [c.imEnd] + c.newline
            && (n >= 0 ==> Size(c, said[..k]) <= n && (k < |said| ==> Size(c, said[..k + 1]) > n))
            && (n < 0 ==> k == 0))
  {
    k := 0;
    if v.reply >= 0 {
      var end := |v.ids| - 1 - |c.newline|;
      var said := if end < v.reply then [] else v.ids[v.reply..end];
      k := Heard(c, said, n);
      if n >= 0 {
        HeardIsMost(c, said, n);
      }
      assert v.ids[..v.reply + k] == v.ids[..v.reply] + said[..k];
    }
  }
}
