// The session of qwen3/chat.go: a reusable key/value store, a remembered state and
// drafts of tool calls, proved to say what Conversation.dfy says.

module Session {
  import opened Wrappers
  import opened Conversation

  /** The tokens whose keys and values a store holds, and the most it can hold.
      A store of capacity 0 is one not yet made. */
  datatype PrefixKV = PrefixKV(tokens: seq<Token>, capacity: nat)

  function CommonPrefix(a: seq<Token>, b: seq<Token>): (n: nat)
    ensures n <= |a| && n <= |b| && a[..n] == b[..n]
    ensures n < |a| && n < |b| ==> a[n] != b[n]
  {
    if a == [] || b == [] || a[0] != b[0] then 0 else
      var n := CommonPrefix(a[1..], b[1..]);
      assert a[..n + 1] == [a[0]] + a[1..][..n] && b[..n + 1] == [b[0]] + b[1..][..n];
      1 + n
  }

  lemma {:induction false} PrefixIsCommon(a: seq<Token>, b: seq<Token>, n: nat)
    requires n <= |a| && n <= |b| && a[..n] == b[..n]
    ensures CommonPrefix(a, b) >= n
    decreases n
  {
    if n > 0 {
      assert a[0] == a[..n][0] && b[0] == b[..n][0];
      assert a[1..][..n - 1] == a[..n][1..] && b[1..][..n - 1] == b[..n][1..];
      PrefixIsCommon(a[1..], b[1..], n - 1);
    }
  }

  lemma CommonIsExact(a: seq<Token>, b: seq<Token>, n: nat)
    requires n <= |a| && n <= |b| && a[..n] == b[..n] && (n < |a| && n < |b| ==> a[n] != b[n])
    ensures CommonPrefix(a, b) == n
  {
    PrefixIsCommon(a, b, n);
  }

  /** The call written so far is the start of a call to t. */
  predicate Fits(t: Tool, written: seq<Token>) {
    |written| < |t.scaffold| && t.scaffold[..|written|] == written
  }

  /** What the scaffolds of the tools that fit share after what is written, if one fits. */
  function Shared(tools: seq<Tool>, written: seq<Token>): Option<seq<Token>> {
    if tools == [] then None else
      var t, before := tools[|tools| - 1], Shared(tools[..|tools| - 1], written);
      if !Fits(t, written) then before else
        var rest := t.scaffold[|written|..];
        match before
        case None => Some(rest)
        case Some(d) => Some(d[..CommonPrefix(d, rest)])
  }

  /** A draft follows every scaffold the call can still be, and nothing longer does. */
  lemma {:induction false} SharedIsLongest(tools: seq<Tool>, written: seq<Token>, e: seq<Token>)
    ensures Shared(tools, written).Some? <==> exists t :: t in tools && Fits(t, written)
    ensures Shared(tools, written).Some? ==>
      (e <= Shared(tools, written).value <==>
        forall t :: t in tools && Fits(t, written) ==> e <= t.scaffold[|written|..])
    decreases |tools|
  {
    if tools != [] {
      var t, init := tools[|tools| - 1], tools[..|tools| - 1];
      assert tools == init + [t];
      SharedIsLongest(init, written, e);
      if Fits(t, written) && Shared(init, written).Some? {
        CommonIsLongest(Shared(init, written).value, t.scaffold[|written|..], e);
      }
    }
  }

  lemma CommonIsLongest(a: seq<Token>, b: seq<Token>, e: seq<Token>)
    ensures e <= a[..CommonPrefix(a, b)] <==> e <= a && e <= b
  {
    if e <= a && e <= b {
      PrefixIsCommon(a, b, |e|);
    }
  }

  function DraftOf(c: Config, calling: bool, written: seq<Token>, max: int): (d: seq<Token>)
    ensures d == [] || |d| < max
  {
    if !calling || max <= 1 then [] else
      match Shared(c.tools, written)
      case None => []
      case Some(s) => if |s| < max then s else s[..max - 1]
  }

  /** One position of a check. */
  lemma CheckedStep(c: Config, o: Options, t: Turn, draft: seq<Token>, x: Token, u: Turn)
    requires (x, u) == Sample(c, o, t)
    ensures Checked(c, o, t, draft) ==
      if draft == [] || x != draft[0] then (u, x) else Checked(c, o, Conversation.Take(c, u, x), draft[1..])
  {
  }

  /** A store evaluated up to the last token of ids. */
  ghost predicate HoldsAllButLast(tokens: seq<Token>, ids: seq<Token>) {
    0 < |ids| <= |tokens| + 1 && tokens[..|ids| - 1] == ids[..|ids| - 1]
  }

  lemma OneTokenTaken(tokens: seq<Token>, ids: seq<Token>, x: Token)
    requires ids <= tokens
    ensures HoldsAllButLast(tokens, ids + [x])
  {
    assert (ids + [x])[..|ids|] == ids;
  }

  lemma LastTokenStored(tokens: seq<Token>, ids: seq<Token>)
    requires HoldsAllButLast(tokens, ids)
    ensures |ids| - 1 <= |tokens| && tokens[..|ids| - 1] + ids[|ids| - 1..] == ids
  {
  }

  lemma DraftSlices(before: seq<Token>, draft: seq<Token>, taken: nat)
    requires taken <= |draft|
    ensures (before + draft)[..|before| + taken] == before + draft[..taken] <= before + draft
    ensures taken < |draft| ==>
      draft[taken..][1..] == draft[taken + 1..] &&
        before + draft[..taken + 1] == before + draft[..taken] + [draft[taken]]
  {
  }

  /** order lists the set, once each. */
  ghost predicate Listed(s: set<Token>, order: seq<Token>) {
    && (forall i :: 0 <= i < |order| ==> order[i] in s)
    && (forall x :: x in s ==> x in order)
    && (forall i, j :: 0 <= i < j < |order| ==> order[i] != order[j])
  }

  const ROOM_AHEAD := 512

  class Session {
    const c: Config
    var ids: seq<Token>       // the conversation
    var kv: PrefixKV          // what is evaluated, of it or of a message judged
    var ready: nat            // how much of kv led to hidden; 0 when hidden is of no use
    var finished: real        // the last judgment, while ready says so
    var reply: int            // index in ids of the last reply, negative for none
    var hidden: State
    var text: Bytes
    var written: seq<Bytes>   // the pieces of the last reply
    var calls: seq<Call>
    var calling: bool
    var call: Bytes
    var callIDs: seq<Token>
    var seen: set<Token>
    var seenIDs: seq<Token>   // seen, in order
    var rng: Rng

    ghost predicate Valid()
      reads this
    {
      && c.Valid()
      && |kv.tokens| <= kv.capacity <= c.limit
      && reply <= |ids|
      && (ready > 0 ==> |kv.tokens| <= ready)
      && (ready > 0 && |kv.tokens| == ready ==>
            hidden == c.hidden(kv.tokens) && JudgedBy(kv.tokens, finished))
    }

    /** p is what judging the message that tokens end with gives. */
    ghost predicate JudgedBy(tokens: seq<Token>, p: real) {
      var tail := 1 + |c.newline| + |c.answer|;
      tail <= |tokens| &&
      var text := tokens[..|tokens| - tail];
      p == EndsAfter(c, [], text)
    }

    /** The reply being written, as the reference sees it. */
    function Now(): Turn
      reads this
    {
      Turn(ids, written, text, calls, calling, if calling then call else [], if calling then callIDs else [], seen, rng)
    }

    constructor (c: Config)
      requires c.Valid()
      ensures Valid() && this.c == c && ids == [] && reply == -1
    {
      this.c := c;
      ids, kv, ready, finished, reply, hidden := [], PrefixKV([], 0), 0, 0.0, -1, [];
      text, written, calls, calling, call, callIDs, seen, seenIDs, rng := [], [], [], false, [], [], {}, [], 0;
    }

    /** The reply goes on by id, exactly as the reference's does. */
    method Take(id: Token)
      requires Listed(seen, seenIDs)
      modifies this`ids, this`written, this`text, this`calls, this`calling, this`call, this`callIDs, this`seen,
               this`seenIDs
      ensures Now() == Conversation.Take(c, old(Now()), id) && Listed(seen, seenIDs)
    {
      ids := ids + [id];
      Remember(id);
      if id == c.callOpen {
        calling, call, callIDs := true, [], [];
      } else if id == c.callClose {
        if calling {
          calling := false;
          match c.parse(call)
          case None =>
          case Some(x) => calls := calls + [x];
        }
      } else if calling {
        call := call + c.piece(id);
        callIDs := callIDs + [id];
      } else {
        Emit(c.piece(id), false);
      }
    }

    /** id joins the penalized tokens, once. */
    method Remember(id: Token)
      requires Listed(seen, seenIDs)
      modifies this`seen, this`seenIDs
      ensures seen == old(seen) + {id} && Listed(seen, seenIDs)
    {
      if id !in seen {
        seen := seen + {id};
        seenIDs := seenIDs + [id];
      }
    }

    /** text and written change as in the reference's Emit. */
    method Emit(piece: Bytes, flush: bool)
      modifies this`text, this`written
      ensures Now() == Conversation.Emit(c, old(Now()), piece, flush)
    {
      text := text + piece;
      var cut := |text|;
      if !flush {
        cut := CompleteUTF8(text);
      }
      if cut == 0 {
        return;
      }
      written := written + [text[..cut]];
      text := text[cut..];
    }

    /** How many bytes of b are whole runes, a rune begun at its end left out. */
    method CompleteUTF8(b: Bytes) returns (n: nat)
      ensures n == Complete(c.fullRune, b)
    {
      var back := 1;
      while back <= 3 && back <= |b|
        invariant 1 <= back <= 4 && Complete(c.fullRune, b, back) == Complete(c.fullRune, b)
      {
        var r := b[|b| - back];
        if r < 0x80 {
          return |b|;
        }
        if RuneStart(r) {
          if !c.fullRune(b[|b| - back..]) {
            return |b| - back;
          }
          return |b|;
        }
        back := back + 1;
      }
      return |b|;
    }

    /** The logits that the reference samples from, with every seen token penalized once. */
    method Penalize(l: Logits, o: Options) returns (r: Logits)
      requires Listed(seen, seenIDs)
      ensures r == Penalized(l, seen, o.presence)
    {
      r := l;
      if o.presence == 0.0 {
        return;
      }
      for k := 0 to |seenIDs|
        invariant |r| == |l|
        invariant forall i :: 0 <= i < |l| ==> r[i] == if i in seenIDs[..k] then l[i] - o.presence else l[i]
      {
        var id := seenIDs[k];
        if id < |r| {
          r := r[id := r[id] - o.presence];
        }
        assert seenIDs[..k + 1] == seenIDs[..k] + [id];
      }
      assert seenIDs[..|seenIDs|] == seenIDs;
    }

    /** Draws the token after the conversation, whose state is h. */
    method Next(h: State, o: Options) returns (x: Token)
      requires Listed(seen, seenIDs) && h == c.hidden(ids)
      modifies this`rng
      ensures (x, Now()) == Sample(c, o, old(Now()))
    {
      var l := Penalize(c.logits(h), o);
      var (t, r) := c.draw(o, l, rng);
      x, rng := t, r;
    }

    /** There is room for need tokens afterwards, or all the room there can be; a store that was
        replaced keeps what it shares with the conversation. */
    method Reserve(need: nat, limit: nat)
      requires |kv.tokens| <= kv.capacity <= limit
      modifies this`kv
      ensures |kv.tokens| <= kv.capacity <= limit
      ensures kv.capacity >= need || kv.capacity == limit
      ensures kv.tokens == old(kv.tokens) || kv.tokens == old(kv.tokens)[..CommonPrefix(old(kv.tokens), ids)]
      ensures |kv.tokens| >= |old(kv.tokens)| ==> kv.tokens == old(kv.tokens)
    {
      if kv.capacity >= need {
        return;
      }
      var capacity := 512;
      while capacity < need
        invariant capacity > 0
        decreases need - capacity
      {
        capacity := capacity * 2;
      }
      var n := CommonPrefix(kv.tokens, ids);
      kv := PrefixKV(kv.tokens[..n], if capacity < limit then capacity else limit);
    }

    /** Evaluates tail after the first keep stored tokens. */
    method Extend(keep: nat, tail: seq<Token>)
      requires keep <= |kv.tokens| && tail != [] && keep + |tail| <= kv.capacity
      modifies this`kv
      ensures kv == PrefixKV(old(kv.tokens)[..keep] + tail, old(kv.capacity))
    {
      kv := kv.(tokens := kv.tokens[..keep] + tail);
    }

    /** The loop over the tools finds what DraftOf defines: what all scaffolds that fit agree on,
        cut to leave room for a token of the model's. */
    method Draft(max: int) returns (d: seq<Token>)
      ensures d == DraftOf(c, calling, callIDs, max)
    {
      if !calling || max <= 1 {
        return [];
      }
      d := [];
      var some, n := false, |callIDs|;
      for i := 0 to |c.tools|
        invariant Shared(c.tools[..i], callIDs) == if some then Some(d) else None
        invariant !some ==> d == []
      {
        var t := c.tools[i];
        assert c.tools[..i + 1][..i] == c.tools[..i];
        if n >= |t.scaffold| || t.scaffold[..n] != callIDs {
          continue;
        }
        var rest := t.scaffold[n..];
        if !some {
          d, some := rest, true;
          continue;
        }
        var k := 0;
        while k < |d| && k < |rest| && d[k] == rest[k]
          invariant k <= |d| && k <= |rest| && d[..k] == rest[..k]
        {
          k := k + 1;
        }
        CommonIsExact(d, rest, k);
        d := d[..k];
      }
      assert c.tools[..|c.tools|] == c.tools;
      d := d[..if |d| < max - 1 then |d| else max - 1];
    }

    /** Evaluates ids after the first keep stored tokens, with the states after the last k. */
    method ExtendTail(keep: nat, ids: seq<Token>, k: nat) returns (tail: seq<State>)
      requires keep <= |kv.tokens| && 0 < k <= |ids| && keep + |ids| <= kv.capacity
      modifies this`kv
      ensures kv == PrefixKV(old(kv.tokens)[..keep] + ids, old(kv.capacity))
      ensures |tail| == k && forall j :: 0 <= j < k ==> tail[j] == c.hidden(kv.tokens[..|kv.tokens| - k + 1 + j])
    {
      Extend(keep, ids);
      var stored := kv.tokens;
      tail := seq(k, j requires 0 <= j < k => c.hidden(stored[..|stored| - k + 1 + j]));
    }

    /** The turn and the next token are those of Checked, and the store holds every token taken
        by then. */
    method Verify(draft: seq<Token>, o: Options) returns (taken: nat, next: Token)
      requires c.Valid() && Listed(seen, seenIDs) && draft != []
      requires HoldsAllButLast(kv.tokens, ids)
      requires |ids| + |draft| <= kv.capacity
      modifies this`ids, this`written, this`text, this`calls, this`calling, this`call, this`callIDs,
               this`seen, this`seenIDs, this`rng, this`kv, this`hidden
      ensures Listed(seen, seenIDs) && (Now(), next) == Checked(c, o, old(Now()), draft)
      ensures taken == |ids| - |old(ids)| <= |draft| && old(ids) <= ids
      ensures ids <= kv.tokens && kv.capacity == old(kv.capacity) && |kv.tokens| <= kv.capacity
    {
      hide Conversation.Take, Penalized, Listed, Checked, Sample, Config.Valid;
      ghost var turn, before := Now(), ids;
      var base := |ids| - 1;
      var probe := [ids[base]] + draft;
      var tail := ExtendTail(base, probe, |probe|);
      assert kv.tokens == before + draft;
      taken := 0;
      while true
        invariant taken <= |draft| && ids == before + draft[..taken] && Listed(seen, seenIDs)
        invariant Checked(c, o, turn, draft) == Checked(c, o, Now(), draft[taken..])
        invariant kv == PrefixKV(before + draft, old(kv.capacity))
        decreases |draft| - taken
      {
        DraftSlices(before, draft, taken);
        ghost var now := Now();
        var x := Next(tail[taken], o);
        CheckedStep(c, o, now, draft[taken..], x, Now());
        if taken == |draft| || x != draft[taken] {
          hidden := tail[taken];
          return taken, x;
        }
        TakeIds(c, Now(), x);
        Take(x);
        taken := taken + 1;
      }
    }

    /** Makes hidden the state after the whole conversation, evaluating what the store
        does not hold, and nothing when a judgment left it there. */
    method Evaluate(need: nat)
      requires Valid() && 0 < |ids| <= need <= c.limit
      modifies this`kv, this`hidden, this`ready
      ensures kv.tokens == ids && hidden == c.hidden(ids) && ready == 0
      ensures |ids| <= need <= kv.capacity <= c.limit
    {
      hide Config.Valid, EndsAfter;
      Reserve(need, c.limit);
      if ready != |ids| || |kv.tokens| != |ids| || CommonPrefix(kv.tokens, ids) != |ids| {
        var keep := CommonPrefix(kv.tokens, ids);
        if keep > |ids| - 1 {
          keep := |ids| - 1;
        }
        assert kv.tokens[..keep] == ids[..keep];
        Extend(keep, ids[keep..]);
        assert kv.tokens == ids;
        hidden := c.hidden(kv.tokens);
      } else {
        assert kv.tokens == ids == old(kv.tokens);
      }
      ready := 0;
    }

    /** Generates the assistant's next message. */
    method Reply(o: Options) returns (ok: bool)
      requires Valid() && forall t :: t in c.tools ==> !HasEnd(c, t.scaffold)
      modifies this
      ensures Valid() && reply == |old(ids)| + |c.answer|
      ensures ok <==> Conversation.Reply(c, old(ids), o).Some?
      ensures if ok then Now() == Conversation.Reply(c, old(ids), o).value else ids == old(ids) + c.answer
    {
      hide Conversation.Take, Conversation.Emit, Penalized, Listed, Decode, HasEnd, EndsAfter, Finish;
      ids := ids + c.answer;
      reply := |ids|;
      var limit := c.limit;
      var room := limit - |ids| - 2;
      if o.maxTokens > 0 && o.maxTokens < room {
        room := o.maxTokens;
      }
      if room <= 0 {
        return false;
      }
      Evaluate(|ids| + (if room < 256 then room else 256) + 2);
      Start(o);
      Generate(o, room);
      End();
      ok := true;
    }

    /** Clears what belongs to one reply. */
    method Start(o: Options)
      modifies this`rng, this`text, this`written, this`calls, this`calling, this`seen, this`seenIDs
      ensures Now() == Turn(ids, [], [], [], false, [], [], {}, c.seed(o)) && Listed(seen, seenIDs)
    {
      rng := c.seed(o);
      text, written, calls, calling := [], [], [], false;
      seen, seenIDs := {}, [];
    }

    /** Flushes the text, ends the message, and grows the store for the next one. */
    method End()
      requires |kv.tokens| <= kv.capacity <= c.limit
      modifies this`text, this`written, this`ids, this`kv
      ensures Now() == Finish(c, old(Now())) && |old(ids)| <= |ids|
      ensures |kv.tokens| <= kv.capacity <= c.limit
    {
      Emit([], true);
      ids := ids + [c.imEnd] + c.newline;
      if kv.capacity - |ids| < ROOM_AHEAD {
        Reserve(|ids| + ROOM_AHEAD, c.limit);
      }
    }

    /** Takes tokens until the reply ends. */
    method Generate(o: Options, room: nat)
      requires c.Valid() && Listed(seen, seenIDs) && forall t :: t in c.tools ==> !HasEnd(c, t.scaffold)
      requires 0 < |ids| && 0 < room <= c.limit - |ids| - 2
      requires kv.tokens == ids && hidden == c.hidden(ids) && |ids| <= kv.capacity <= c.limit
      modifies this`ids, this`written, this`text, this`calls, this`calling, this`call, this`callIDs,
               this`seen, this`seenIDs, this`rng, this`kv, this`hidden
      ensures Now() == Decode(c, o, old(Now()), room)
      ensures |old(ids)| <= |ids| && |kv.tokens| <= kv.capacity <= c.limit
    {
      hide Conversation.Take, Conversation.Emit, Penalized, Listed, Checked, Sample, Decode, Resume, HasEnd, DraftOf,
        Config.Valid, HoldsAllButLast;
      ghost var start, whole := |ids|, Decode(c, o, Now(), room);
      var n, next, sampled: bool := 0, 0, false;
      while n < room
        invariant n < room && |ids| == start + n && Listed(seen, seenIDs)
        invariant |kv.tokens| <= kv.capacity <= c.limit
        invariant !sampled ==> kv.tokens == ids && hidden == c.hidden(ids) && whole == Decode(c, o, Now(), room - n)
        invariant sampled ==> ids <= kv.tokens && whole == Resume(c, o, Now(), next, room - n)
      {
        if !sampled {
          DecodeStep(c, o, Now(), room - n);
          next := Next(hidden, o);
        }
        ResumeStep(c, o, Now(), next, room - n);
        if next == c.imEnd || next == c.endText {
          break;
        }
        TakeIds(c, Now(), next);
        OneTokenTaken(kv.tokens, ids, next);
        Take(next);
        if n + 1 == room {
          break;
        }
        var taken: nat;
        taken, next, sampled := Follow(o, room - n - 1);
        n := n + taken + 1;
      }
    }

    /** Makes room for need tokens, growing the store by at least doubling it. */
    method MakeRoom(need: nat)
      requires need <= c.limit && |kv.tokens| <= kv.capacity <= c.limit && HoldsAllButLast(kv.tokens, ids)
      modifies this`kv
      ensures need <= kv.capacity <= c.limit && |kv.tokens| <= kv.capacity && HoldsAllButLast(kv.tokens, ids)
    {
      if need > kv.capacity {
        PrefixIsCommon(kv.tokens, ids, |ids| - 1);
        Reserve(if 2 * kv.capacity > need then 2 * kv.capacity else need, c.limit);
      }
    }

    /** Evaluates the last token taken, with the draft after it if there is one: then the
        next token is drawn already. At most left tokens may follow. */
    method Follow(o: Options, left: nat) returns (taken: nat, next: Token, sampled: bool)
      requires c.Valid() && Listed(seen, seenIDs) && forall t :: t in c.tools ==> !HasEnd(c, t.scaffold)
      requires HoldsAllButLast(kv.tokens, ids)
      requires 0 < left <= c.limit - |ids| - 2 && |kv.tokens| <= kv.capacity <= c.limit
      modifies this`ids, this`written, this`text, this`calls, this`calling, this`call, this`callIDs,
               this`seen, this`seenIDs, this`rng, this`kv, this`hidden
      ensures Listed(seen, seenIDs) && |kv.tokens| <= kv.capacity <= c.limit
      ensures taken == |ids| - |old(ids)| < left
      ensures sampled ==> ids <= kv.tokens && Resume(c, o, Now(), next, left - taken) == Decode(c, o, old(Now()), left)
      ensures !sampled ==> taken == 0 && kv.tokens == ids && hidden == c.hidden(ids) && Now() == old(Now())
    {
      hide Conversation.Take, Conversation.Emit, Penalized, Listed, Checked, Sample, Decode, Resume, HasEnd, DraftOf,
        Config.Valid, HoldsAllButLast;
      taken, next := 0, 0;
      var draft := Draft(left);
      MakeRoom(|ids| + |draft| + 2);
      sampled := draft != [];
      if sampled {
        DraftHasNoEnd(c, calling, callIDs, left);
        CheckedIsDecode(c, o, Now(), draft, left);
        taken, next := Verify(draft, o);
      } else {
        LastTokenStored(kv.tokens, ids);
        Extend(|ids| - 1, ids[|ids| - 1..]);
        hidden := c.hidden(kv.tokens);
      }
    }

    /** Appends a complete message. */
    method Add(role: Role, text: Bytes) returns (ok: bool)
      requires Valid()
      modifies this`ids, this`reply
      ensures Valid()
      ensures c.encode(text).Some? <==> ok
      ensures if ok then ids == old(ids) + Message(c, role, c.encode(text).value) && reply == -1
              else ids == old(ids) && reply == old(reply)
    {
      hide Config.Valid, EndsAfter;
      var start := |ids|;
      ids := ids + c.header(role);
      match c.encode(text)
      case None =>
        ids := ids[..start];
        return false;
      case Some(body) =>
        ids := ids + body;
        if role == ToolResult {
          ids := ids + c.resultEnd;
        }
        ids := ids + [c.imEnd];
        ids := ids + c.newline;
        reply := -1;
        return true;
    }

    /** The reference's judgment, or its refusal, from whatever the store holds; the conversation
        is left as it is. */
    method Finished(role: Role, text: Bytes) returns (r: Option<real>)
      requires Valid()
      modifies this`kv, this`hidden, this`ready, this`finished
      ensures Valid()
      ensures r == match Conversation.Serve(c, Visible(ids, reply), Request.Judge(role, text)).1
        case Judged(p) => Some(p)
        case _ => None
    {
      hide EndsAt, Closers, Config.Valid;
      if role == ToolResult || c.encode(text).None? {
        return None;
      }
      var body := c.encode(text).value;
      var closed := 0;
      while closed < |body| && c.closer(body[|body| - 1 - closed])
        invariant closed <= |body| && forall i :: |body| - closed <= i < |body| ==> c.closer(body[i])
      {
        closed := closed + 1;
      }
      ClosersUnique(c, body, closed);
      HeaderEnds(c, ids, role);
      JudgmentOfTokens(c, ids + c.header(role), body);
      var probe := Probe(c, ids, role, body);
      if |probe| + 4 > c.limit {
        return None;
      }
      assert probe[..|ids + c.header(role) + body|] == ids + c.header(role) + body;
      var p := Judge(probe, |ids + c.header(role) + body|, closed);
      return Some(p);
    }

    /** Judges the first end tokens of probe, closed of which are closing punctuation. */
    method Judge(probe: seq<Token>, end: nat, closed: nat) returns (p: real)
      requires Valid() && |probe| + 4 <= c.limit
      requires closed < end == |probe| - 1 - |c.newline| - |c.answer|
      requires EndsAt(c, probe[..end], closed) == EndsAfter(c, [], probe[..end])
      modifies this`kv, this`hidden, this`ready, this`finished
      ensures Valid() && p == EndsAt(c, probe[..end], closed)
    {
      hide EndsAt, EndsAfter, Config.Valid, CommonPrefix;
      if ready == |probe| && |kv.tokens| == |probe| && CommonPrefix(kv.tokens, probe) == |probe| {
        // Judged before, and still stored.
        assert kv.tokens == probe;
        return finished;
      }
      // The last k states include those before and after the closing punctuation.
      var k := |probe| - end + 1 + closed;
      var tail := EvaluateTail(probe, k);
      hidden := tail[k - 1];
      ready := |probe|;
      p := c.ends(tail[0]);
      if closed > 0 {
        p := p * c.ends(tail[closed]);
      }
      JudgedByStates(c, probe, end, closed, p);
      finished := p;
    }

    /** Makes the store hold probe, with the states after its last k tokens. */
    method EvaluateTail(probe: seq<Token>, k: nat) returns (tail: seq<State>)
      requires 0 < k <= |probe| && |probe| + 4 <= c.limit && |kv.tokens| <= kv.capacity <= c.limit
      modifies this`kv
      ensures kv.tokens == probe && |probe| <= kv.capacity <= c.limit && |tail| == k
      ensures tail[0] == c.hidden(probe[..|probe| - k + 1]) && tail[k - 1] == c.hidden(probe)
      ensures forall j :: 0 <= j < k ==> tail[j] == c.hidden(probe[..|probe| - k + 1 + j])
    {
      hide CommonPrefix, Config.Valid;
      Reserve(if |probe| + 256 + 4 < c.limit then |probe| + 256 + 4 else c.limit, c.limit);
      var keep := CommonPrefix(kv.tokens, probe);
      if keep > |probe| - k {
        keep := |probe| - k;
      }
      Joined(kv.tokens, probe, keep);
      tail := ExtendTail(keep, probe[keep..], k);
      assert probe[..|probe|] == probe;
    }

    /** Evaluates the conversation so far. */
    method Prefill() returns (ok: bool)
      requires Valid()
      modifies this`kv, this`hidden, this`ready
      ensures Valid() && (ok <==> |ids| + |c.answer| + 2 <= c.limit)
      ensures ok ==> ids <= kv.tokens
    {
      hide Config.Valid, EndsAfter;
      if |ids| + |c.answer| + 2 > c.limit {
        return false;
      }
      var need := |ids| + |c.answer| + 256 + 2;
      Reserve(if need < c.limit then need else c.limit, c.limit);
      var keep := CommonPrefix(kv.tokens, ids);
      if keep == |ids| {
        return true;
      }
      ready := 0;
      Extend(keep, ids[keep..]);
      assert kv.tokens == ids;
      hidden := c.hidden(kv.tokens);
      return true;
    }

    /** The conversation becomes Truncated, if there is a reply to cut. */
    method Truncate(n: int) returns (ok: bool)
      requires Valid()
      modifies this`ids
      ensures Valid() && (ok <==> reply >= 0)
      ensures ids == if ok then Truncated(c, Visible(old(ids), reply), n) else old(ids)
    {
      hide Config.Valid, EndsAfter, Heard;
      if reply < 0 {
        return false;
      }
      var end := |ids| - 1 - |c.newline|;
      var said := if end < reply then [] else ids[reply..end];
      var kept := CountHeard(said, n);
      ids := ids[..reply + kept] + [c.imEnd];
      ids := ids + c.newline;
      return true;
    }

    /** How many tokens of said are heard in its first n bytes. */
    method CountHeard(said: seq<Token>, n: int) returns (k: nat)
      ensures k == Heard(c, said, n)
    {
      hide Config.Valid, Heard;
      k := 0;
      var size := 0;
      HeardStep(c, said, n);
      while k < |said|
        invariant k <= |said| && Heard(c, said, n) == k + Heard(c, said[k..], n - size)
      {
        HeardStep(c, said[k..], n - size);
        size := size + |c.piece(said[k])|;
        if size > n {
          return;
        }
        assert said[k..][1..] == said[k + 1..];
        k := k + 1;
      }
      HeardStep(c, said[k..], n - size);
    }

    /** Marks the conversation. */
    function Checkpoint(): nat
      reads this
    {
      |ids|
    }

    /** The first mark tokens of the conversation are left, for any mark within it. */
    method Restore(mark: int) returns (ok: bool)
      requires Valid()
      modifies this`ids, this`reply
      ensures Valid() && (ok <==> 0 <= mark <= |old(ids)|)
      ensures if ok then ids == old(ids)[..mark] && reply == -1 else ids == old(ids) && reply == old(reply)
    {
      hide Config.Valid, EndsAfter;
      if mark < 0 || mark > |ids| {
        return false;
      }
      ids := ids[..mark];
      reply := -1;
      return true;
    }

    /** Any request is served as by a session that keeps nothing evaluated. */
    method Serve(r: Request) returns (a: Response)
      requires Valid() && forall t :: t in c.tools ==> !HasEnd(c, t.scaffold)
      modifies this
      ensures Valid()
      ensures (Visible(ids, reply), a) == Conversation.Serve(c, Visible(old(ids), old(reply)), r)
    {
      hide Config.Valid, EndsAfter, HasEnd, Decode, Truncated, Conversation.Reply;
      var ok;
      match r
      case AddMessage(role, text) => ok := Add(role, text); a := if ok then Done else Refused;
      case Answer(o) => ok := Reply(o); a := if ok then Said(Now()) else Refused;
      case Judge(role, text) => var p := Finished(role, text); a := if p.Some? then Judged(p.value) else Refused;
      case Prepare => ok := Prefill(); a := if ok then Done else Refused;
      case Cut(n) => ok := Truncate(n); a := if ok then Done else Refused;
      case Rewind(mark) => ok := Restore(mark); a := if ok then Done else Refused;
    }

    /** Over every run of requests, nothing of the cache, the remembered state or the drafts
        shows: not in a reply's tokens, pieces, calls or draws, nor in a judgment. */
    method ServeAll(rs: seq<Request>) returns (responses: seq<Response>)
      requires Valid() && forall t :: t in c.tools ==> !HasEnd(c, t.scaffold)
      modifies this
      ensures Valid() && responses == Conversation.ServeAll(c, Visible(old(ids), old(reply)), rs)
    {
      hide Config.Valid, HasEnd, Conversation.Serve;
      responses := [];
      for i := 0 to |rs|
        invariant Valid()
        invariant Conversation.ServeAll(c, Visible(old(ids), old(reply)), rs) ==
          responses + Conversation.ServeAll(c, Visible(ids, reply), rs[i..])
      {
        var a := Serve(rs[i]);
        responses := responses + [a];
        assert rs[i..][1..] == rs[i + 1..];
      }
    }
  }

  /** The two states judged are those before and after the closing punctuation. */
  lemma JudgedByStates(c: Config, probe: seq<Token>, end: nat, closed: nat, p: real)
    requires closed < end <= |probe|
    requires p == var q := c.ends(c.hidden(probe[..end - closed]));
      if closed > 0 then q * c.ends(c.hidden(probe[..end])) else q
    ensures p == EndsAt(c, probe[..end], closed)
  {
    assert probe[..end][..end - closed] == probe[..end - closed];
  }

  lemma Joined(tokens: seq<Token>, probe: seq<Token>, keep: nat)
    requires keep <= CommonPrefix(tokens, probe)
    ensures tokens[..keep] + probe[keep..] == probe
  {
    assert tokens[..keep] == probe[..keep];
  }

  /** A message's header separates its closing punctuation from what comes before. */
  lemma HeaderEnds(c: Config, ids: seq<Token>, role: Role)
    requires c.Valid()
    ensures |ids + c.header(role)| > |ids| && !c.closer((ids + c.header(role))[|ids + c.header(role)| - 1])
  {
  }

  lemma HeardStep(c: Config, s: seq<Token>, n: int)
    ensures Heard(c, s, n) == if s == [] || |c.piece(s[0])| > n then 0 else 1 + Heard(c, s[1..], n - |c.piece(s[0])|)
  {
  }

  lemma DecodeStep(c: Config, o: Options, t: Turn, room: nat)
    requires room > 0
    ensures var (x, u) := Sample(c, o, t); Decode(c, o, t, room) == Resume(c, o, u, x, room)
  {
  }

  lemma ResumeStep(c: Config, o: Options, t: Turn, next: Token, room: nat)
    requires room > 0
    ensures Resume(c, o, t, next, room) == if c.Ends(next) then t
      else Decode(c, o, Conversation.Take(c, t, next), room - 1)
    ensures Decode(c, o, Conversation.Take(c, t, next), 0) == Conversation.Take(c, t, next)
  {
  }

  /** What a draft holds is in a scaffold. */
  lemma DraftHasNoEnd(c: Config, calling: bool, written: seq<Token>, max: int)
    requires forall t :: t in c.tools ==> !HasEnd(c, t.scaffold)
    ensures !HasEnd(c, DraftOf(c, calling, written, max))
  {
    var d := DraftOf(c, calling, written, max);
    SharedIsLongest(c.tools, written, d);
    if d != [] {
      var t :| t in c.tools && Fits(t, written);
      assert d <= t.scaffold[|written|..];
      forall i | 0 <= i < |d| ensures !c.Ends(d[i]) {
        assert t.scaffold[|written| + i] == d[i];
      }
    }
  }

  /** Going on from a check of a draft without end tokens is going on without one. */
  lemma CheckedIsDecode(c: Config, o: Options, t: Turn, draft: seq<Token>, room: nat)
    requires room > |draft| && !HasEnd(c, draft)
    ensures var (u, next) := Checked(c, o, t, draft);
      && |t.ids| <= |u.ids| <= |t.ids| + |draft|
      && Resume(c, o, u, next, room - (|u.ids| - |t.ids|)) == Decode(c, o, t, room)
  {
    CheckedGrows(c, o, t, draft);
    DraftInvisible(c, o, t, draft, room);
  }
}
