// The timestamp grammar of whisper/greedy.go: the tokens that the greedy decoder's masking
// leaves, and every run of tokens they make.

module Timestamps {
  import opened Wrappers

  type Token = nat

  /** A 32-bit score: what matters of it is its order. */
  datatype Logit = NaN | NegInf | Finite(v: real) | PosInf

  predicate Greater(a: Logit, b: Logit) {
    match (a, b)
    case (NaN, _) => false
    case (_, NaN) => false
    case (NegInf, _) => false
    case (_, NegInf) => true
    case (_, PosInf) => false
    case (PosInf, _) => true
    case (Finite(x), Finite(y)) => x > y
  }

  predicate Candidate(l: Logit) {
    Greater(l, NegInf)
  }

  /** rules is on unless the context asks for no timestamps or the options disable the rules.
      louder says whether the timestamps together are likelier than every text token. */
  datatype Policy = Policy(
    vocab: nat, eot: Token, noTimestamps: Token, begin: Token, space: Token,
    sot: Token, sotPrev: Token, taskTokens: seq<Token>,
    suppressed: seq<Token>, blank: bool, rules: bool, limit: bool, maxInitial: nat,
    withoutTimestamps: bool, louder: seq<Logit> -> bool)
  {
    predicate Valid() {
      && eot < begin && noTimestamps < begin && space < begin && begin <= vocab
      && forall i :: 0 <= i < |suppressed| ==> suppressed[i] < vocab
    }

    predicate Time(t: Token) {
      t >= begin
    }
  }

  /** The last timestamp of g. */
  function LastSeen(p: Policy, g: seq<Token>): Option<Token> {
    if g == [] then None
    else if p.Time(g[|g| - 1]) then Some(g[|g| - 1])
    else LastSeen(p, g[..|g| - 1])
  }

  predicate LastIsTime(p: Policy, g: seq<Token>) {
    |g| > 0 && p.Time(g[|g| - 1])
  }

  predicate BeforeLastIsTime(p: Policy, g: seq<Token>) {
    |g| < 2 || p.Time(g[|g| - 2])
  }

  /** What the rules mask after g, whatever the scores are. */
  predicate RuleBars(p: Policy, g: seq<Token>, id: Token) {
    || id == p.noTimestamps
    || (LastIsTime(p, g) && if BeforeLastIsTime(p, g) then p.Time(id) else id < p.eot)
    || (LastSeen(p, g).Some? && p.Time(id) &&
        if LastIsTime(p, g) && !BeforeLastIsTime(p, g) then id < LastSeen(p, g).value else id <= LastSeen(p, g).value)
    || (g == [] && (id < p.begin || (p.limit && id > p.begin + p.maxInitial)))
  }

  /** Everything that is masked after g, whatever the scores are. */
  predicate Bars(p: Policy, g: seq<Token>, id: Token) {
    || id in p.suppressed
    || (p.blank && g == [] && (id == p.eot || id == p.space))
    || (p.rules && RuleBars(p, g, id))
  }

  // The grammar.

  /** The token at i of a run: the run starts with a timestamp within the limit, then text; no
      three timestamps follow each other; after text and a timestamp comes another timestamp,
      the end, or a control token. */
  predicate Placed(p: Policy, g: seq<Token>, i: nat)
    requires i < |g|
  {
    && g[i] !in p.suppressed && g[i] != p.noTimestamps
    && (i == 0 ==> p.Time(g[0]) && (p.limit ==> g[0] <= p.begin + p.maxInitial))
    && (i == 1 ==> !p.Time(g[1]))
    && (i >= 2 && p.Time(g[i - 2]) && p.Time(g[i - 1]) ==> !p.Time(g[i]))
    && (i >= 2 && !p.Time(g[i - 2]) && p.Time(g[i - 1]) ==> g[i] >= p.eot)
  }

  /** Timestamps never go back, and after text they go on. */
  predicate InOrder(p: Policy, g: seq<Token>, i: nat, j: nat)
    requires i < j < |g|
  {
    p.Time(g[i]) && p.Time(g[j]) ==> if p.Time(g[j - 1]) then g[i] <= g[j] else g[i] < g[j]
  }

  /** What a run of tokens is, with the rules on. */
  ghost predicate Grammar(p: Policy, g: seq<Token>) {
    && (forall i: nat | i < |g| :: Placed(p, g, i))
    && (forall i: nat, j: nat | i < j < |g| :: InOrder(p, g, i, j))
  }

  lemma {:induction false} NoneSeen(p: Policy, g: seq<Token>, i: nat)
    requires LastSeen(p, g).None? && i < |g|
    ensures !p.Time(g[i])
    decreases |g|
  {
    if i < |g| - 1 {
      NoneSeen(p, g[..|g| - 1], i);
    }
  }

  lemma {:induction false} LastSeenAt(p: Policy, g: seq<Token>) returns (k: nat)
    requires LastSeen(p, g).Some?
    ensures k < |g| && g[k] == LastSeen(p, g).value && p.Time(g[k])
    ensures forall i :: k < i < |g| ==> !p.Time(g[i])
    decreases |g|
  {
    k := |g| - 1;
    if !p.Time(g[k]) {
      var h := g[..|g| - 1];
      k := LastSeenAt(p, h);
      assert forall i :: k < i < |h| ==> g[i] == h[i];
    }
  }

  /** Not masked, at the end of g: the token is in its place, and in order after the last timestamp. */
  lemma UnmaskedIs(p: Policy, g: seq<Token>, id: Token)
    requires p.Valid() && p.rules && Grammar(p, g)
    ensures !Bars(p, g, id) <==>
      (Placed(p, g + [id], |g|) &&
       (LastSeen(p, g).Some? && p.Time(id) && !(LastIsTime(p, g) && BeforeLastIsTime(p, g)) ==>
          if LastIsTime(p, g) then LastSeen(p, g).value <= id else LastSeen(p, g).value < id))
  {
    hide LastSeen;
    var h := g + [id];
    var n := |g|;
    assert n > 0 ==> Placed(p, g, 0);
    assert h[n] == id && (n > 0 ==> h[n - 1] == g[n - 1]) && (n > 1 ==> h[n - 2] == g[n - 2]);
  }

  /** In order after every timestamp is in order after the last. */
  lemma OrderIsLast(p: Policy, g: seq<Token>, id: Token)
    requires Grammar(p, g)
    ensures (forall i: nat | i < |g| :: InOrder(p, g + [id], i, |g|)) <==>
      (LastSeen(p, g).Some? && p.Time(id) ==>
         if LastIsTime(p, g) then LastSeen(p, g).value <= id else LastSeen(p, g).value < id)
  {
    hide LastSeen;
    var h := g + [id];
    var n := |g|;
    assert h[n] == id && (n > 0 ==> h[n - 1] == g[n - 1]);
    if LastSeen(p, g).None? {
      forall i: nat | i < n ensures InOrder(p, h, i, n) {
        NoneSeen(p, g, i);
        assert h[i] == g[i];
      }
    } else {
      var k := LastSeenAt(p, g);
      assert h[k] == g[k];
      forall i: nat | i < n ensures InOrder(p, h, k, n) ==> InOrder(p, h, i, n) {
        assert h[i] == g[i];
        if i < k {
          assert InOrder(p, g, i, k);
        }
      }
      assert InOrder(p, h, k, n) <==> forall i: nat | i < n :: InOrder(p, h, i, n);
    }
  }

  /** One more token keeps the grammar exactly when it is not masked. */
  lemma OneMore(p: Policy, g: seq<Token>, id: Token)
    requires p.Valid() && p.rules && Grammar(p, g)
    ensures Grammar(p, g + [id]) <==> !Bars(p, g, id)
  {
    hide Bars, LastSeen;
    var h := g + [id];
    var n := |g|;
    UnmaskedIs(p, g, id);
    OrderIsLast(p, g, id);
    assert Grammar(p, h) <==> Placed(p, h, n) && forall i: nat | i < n :: InOrder(p, h, i, n) by {
      GrammarGrows(p, g, id);
    }
    if Placed(p, h, n) {
      assert h[n] == id && (n > 0 ==> h[n - 1] == g[n - 1]) && (n > 1 ==> h[n - 2] == g[n - 2]);
    }
  }

  lemma GrammarGrows(p: Policy, g: seq<Token>, id: Token)
    requires Grammar(p, g)
    ensures Grammar(p, g + [id]) <==>
      Placed(p, g + [id], |g|) && forall i: nat | i < |g| :: InOrder(p, g + [id], i, |g|)
  {
    var h := g + [id];
    forall i: nat | i < |g| ensures Placed(p, h, i) {
      assert Placed(p, g, i);
    }
    forall i: nat, j: nat | i < j < |g| ensures InOrder(p, h, i, j) {
      assert InOrder(p, g, i, j);
    }
  }

  /** The runs that the masking leaves, one unmasked token after another. */
  ghost predicate Unmasked(p: Policy, g: seq<Token>) {
    forall k :: 0 <= k < |g| ==> !Bars(p, g[..k], g[k])
  }

  /** The runs that the masking leaves are exactly those of the grammar. */
  lemma {:induction false} UnmaskedIsGrammar(p: Policy, g: seq<Token>)
    requires p.Valid() && p.rules
    ensures Unmasked(p, g) <==> Grammar(p, g)
    decreases |g|
  {
    hide Grammar, Bars;
    if g == [] {
      assert Grammar(p, g) by { EmptyRun(p); }
    } else {
      var m := |g| - 1;
      UnmaskedIsGrammar(p, g[..m]);
      assert g == g[..m] + [g[m]];
      assert forall k :: 0 <= k < m ==> g[..m][..k] == g[..k] && g[..m][k] == g[k];
      assert Unmasked(p, g) <==> Unmasked(p, g[..m]) && !Bars(p, g[..m], g[m]);
      GrammarOfPrefix(p, g, m);
      if Grammar(p, g[..m]) {
        OneMore(p, g[..m], g[m]);
      }
    }
  }

  lemma EmptyRun(p: Policy)
    ensures Grammar(p, [])
  {
  }

  lemma GrammarOfPrefix(p: Policy, g: seq<Token>, m: nat)
    requires m <= |g|
    ensures Grammar(p, g) ==> Grammar(p, g[..m])
  {
    if Grammar(p, g) {
      forall i: nat | i < m ensures Placed(p, g[..m], i) {
        assert Placed(p, g, i);
      }
      forall i: nat, j: nat | i < j < m ensures InOrder(p, g[..m], i, j) {
        assert InOrder(p, g, i, j);
      }
    }
  }

  /** Two timestamps with text between them are apart: segments have positive length. */
  lemma {:induction false} SegmentsAreLong(p: Policy, g: seq<Token>, i: nat, k: nat, j: nat)
    requires Grammar(p, g) && i < k < j < |g| && p.Time(g[i]) && !p.Time(g[k]) && p.Time(g[j])
    ensures g[i] < g[j]
    decreases j
  {
    assert InOrder(p, g, i, j) && InOrder(p, g, j - 1, j);
    if p.Time(g[j - 1]) {
      SegmentsAreLong(p, g, i, k, j - 1);
    }
  }

  // The masking, in place.

  /** The scores are the first n of the array. */
  method MaskLogits(logits: array<Logit>, n: nat, start: int, end: int)
    requires n <= logits.Length
    modifies logits
    ensures forall i :: 0 <= i < logits.Length ==>
      logits[i] == if start <= i < end && i < n then NegInf else old(logits[i])
  {
    var lo: nat := if start < 0 then 0 else start;
    var hi := if end > n then n else end;
    if lo < hi {
      for i := lo to hi
        invariant forall k :: 0 <= k < logits.Length ==>
          logits[k] == if lo <= k < i then NegInf else old(logits[k])
      {
        logits[i] := NegInf;
      }
    }
  }

  /** now is was with what the rules mask after g, and, when loud, all text. */
  ghost predicate Ruled(p: Policy, g: seq<Token>, loud: bool, was: seq<Logit>, now: seq<Logit>) {
    |now| == |was| && forall i: Token | i < |was| ::
      now[i] == if RuleBars(p, g, i) || (loud && i < p.begin) then NegInf else was[i]
  }

  /** The first Candidate that no other is Greater than, if there is a Candidate at all. */
  method ArgmaxFinite(values: array<Logit>, n: nat) returns (at: Option<Token>)
    requires n <= values.Length
    ensures at.None? <==> forall i :: 0 <= i < n ==> !Candidate(values[i])
    ensures at.Some? ==> at.value < n && Candidate(values[at.value])
    ensures at.Some? ==> forall i :: 0 <= i < n ==> !Greater(values[i], values[at.value])
    ensures at.Some? ==> forall i :: 0 <= i < at.value ==> values[i] != values[at.value]
  {
    at := None;
    var best := NegInf;
    for i := 0 to n
      invariant at.None? ==> best == NegInf && forall k :: 0 <= k < i ==> !Candidate(values[k])
      invariant at.Some? ==> at.value < i && best == values[at.value] && Candidate(best)
      invariant at.Some? ==> forall k :: 0 <= k < i ==> !Greater(values[k], best)
      invariant at.Some? ==> forall k :: 0 <= k < at.value ==> values[k] != best
    {
      if Greater(values[i], best) {
        at, best := Some(i), values[i];
      }
    }
  }

  /** The timestamps that are left are together likelier than every text token that is left. */
  predicate Loud(p: Policy, row: seq<Logit>) {
    (exists k :: p.begin <= k < |row| && Candidate(row[k])) && p.louder(row)
  }

  class Greedy {
    const p: Policy
    var sampleBegin: nat

    constructor (p: Policy)
      ensures this.p == p && sampleBegin == 0
    {
      this.p := p;
      sampleBegin := 0;
    }

    /** The last timestamp, or -1. */
    method FindLastSeen(g: seq<Token>) returns (lastSeen: int)
      ensures lastSeen >= -1 && LastSeen(p, g) == if lastSeen < 0 then None else Some(lastSeen)
    {
      lastSeen := -1;
      for i := 0 to |g|
        invariant lastSeen >= -1 && LastSeen(p, g[..i]) == if lastSeen < 0 then None else Some(lastSeen)
      {
        assert g[..i + 1][..i] == g[..i];
        if g[i] >= p.begin {
          lastSeen := g[i];
        }
      }
      assert g[..|g|] == g;
    }

    /** Text is masked when the timestamps that are left are together likelier. */
    method MaskText(logits: array<Logit>)
      requires p.Valid() && logits.Length >= p.vocab
      modifies logits
      ensures forall i :: 0 <= i < logits.Length ==>
        logits[i] == if Loud(p, old(logits[..p.vocab])) && i < p.begin then NegInf else old(logits[i])
    {
      ghost var row := logits[..p.vocab];
      var any := false;
      for i := p.begin to p.vocab
        invariant any <==> exists k :: p.begin <= k < i && Candidate(row[k])
      {
        any := any || Candidate(logits[i]);
      }
      if any && p.louder(logits[..p.vocab]) {
        MaskLogits(logits, p.vocab, 0, p.begin);
      }
    }

    /** The suppressed tokens, and at the start the end and the space. */
    method Suppress(dst: array<Logit>, first: bool)
      requires p.Valid() && dst.Length >= p.vocab
      modifies dst
      ensures forall i: Token | i < dst.Length ::
        dst[i] == if i in p.suppressed || (p.blank && first && (i == p.eot || i == p.space)) then NegInf
          else old(dst[i])
    {
      for k := 0 to |p.suppressed|
        invariant forall i: Token | i < dst.Length :: dst[i] == if i in p.suppressed[..k] then NegInf else old(dst[i])
      {
        assert p.suppressed[..k + 1] == p.suppressed[..k] + [p.suppressed[k]];
        dst[p.suppressed[k]] := NegInf;
      }
      assert p.suppressed[..|p.suppressed|] == p.suppressed;
      if p.blank && first {
        dst[p.eot] := NegInf;
        dst[p.space] := NegInf;
      }
    }

    /** The rules, in the source's order: row is what they leave before text is masked for the
        sake of the timestamps. */
    method ApplyTimestampRules(logits: array<Logit>, history: seq<Token>) returns (ghost row: seq<Logit>)
      requires p.Valid() && logits.Length >= p.vocab && sampleBegin <= |history|
      modifies logits
      ensures Ruled(p, history[sampleBegin..], false, old(logits[..p.vocab]), row)
      ensures Ruled(p, history[sampleBegin..], Loud(p, row), old(logits[..p.vocab]), logits[..p.vocab])
      ensures Loud(p, row) ==> exists i :: p.begin <= i < p.vocab && Candidate(logits[i])
      ensures logits[p.vocab..] == old(logits[p.vocab..])
    {
      MaskByRules(logits, history);
      row := logits[..p.vocab];
      MaskText(logits);
    }

    method MaskByRules(logits: array<Logit>, history: seq<Token>)
      requires p.Valid() && logits.Length >= p.vocab && sampleBegin <= |history|
      modifies logits
      ensures Ruled(p, history[sampleBegin..], false, old(logits[..p.vocab]), logits[..p.vocab])
      ensures logits[p.vocab..] == old(logits[p.vocab..])
    {
      hide LastSeen;
      var g := history[sampleBegin..];
      if p.noTimestamps < p.vocab {
        logits[p.noTimestamps] := NegInf;
      }
      var last := |g| > 0 && g[|g| - 1] >= p.begin;
      var beforeLast := |g| < 2 || g[|g| - 2] >= p.begin;
      if last {
        if beforeLast {
          MaskLogits(logits, p.vocab, p.begin, p.vocab);
        } else {
          MaskLogits(logits, p.vocab, 0, p.eot);
        }
      }
      var lastSeen := FindLastSeen(g);
      if lastSeen >= 0 {
        MaskLogits(logits, p.vocab, p.begin, if last && !beforeLast then lastSeen else lastSeen + 1);
      }
      if |history| == sampleBegin {
        MaskLogits(logits, p.vocab, 0, p.begin);
        if p.limit && p.begin + p.maxInitial + 1 < p.vocab {
          MaskLogits(logits, p.vocab, p.begin + p.maxInitial + 1, p.vocab);
        }
      }
    }

    /** The next token, from scores copied to dst, which may be the same array, and masked there.
        No token remains exactly when every token with a score that counts is masked; otherwise the
        choice is the first of the likeliest that are not, except that no text is chosen when the
        timestamps together are likelier. */
    method SelectNext(dst: array<Logit>, logits: array<Logit>, history: seq<Token>) returns (next: Selection)
      requires p.Valid() && sampleBegin <= |history|
      modifies dst
      ensures next == TooFewLogits <==> logits.Length < p.vocab
      ensures next == OutputTooSmall <==> logits.Length >= p.vocab > dst.Length
      ensures next == NoCandidate ==> logits.Length >= p.vocab && forall i: Token | i < p.vocab ::
        Candidate(old(logits[i])) ==> Bars(p, history[sampleBegin..], i)
      ensures next.Selected? ==> logits.Length >= p.vocab
      ensures next.Selected? ==> Chosen(p, history[sampleBegin..], old(logits[..p.vocab]), next.id)
      ensures logits != dst ==> logits[..] == old(logits[..])
      ensures !next.Selected? && next != NoCandidate ==> dst[..] == old(dst[..])
    {
      hide RuleBars, Ruled, Chosen, Loud;
      if logits.Length < p.vocab {
        return TooFewLogits;
      }
      if dst.Length < p.vocab {
        return OutputTooSmall;
      }
      ghost var was := logits[..p.vocab];
      ghost var g := history[sampleBegin..];
      if dst != logits {
        CopyScores(dst, logits);
      }
      assert dst[..p.vocab] == was;
      Suppress(dst, |history| == sampleBegin);
      ghost var before := dst[..p.vocab];
      ghost var loud := false;
      if p.rules {
        ghost var row := ApplyTimestampRules(dst, history);
        loud := Loud(p, row);
        RuledIs(p, g, false, before, row);
        RuledIs(p, g, loud, before, dst[..p.vocab]);
        assert row == Unbarred(p, g, was);
      }
      var best := ArgmaxFinite(dst, p.vocab);
      ghost var now := dst[..p.vocab];
      assert forall i: Token | i < p.vocab ::
        now[i] == if Bars(p, g, i) || (loud && i < p.begin) then NegInf else was[i];
      if best.None? {
        return NoCandidate;
      }
      ChosenIs(p, g, loud, was, now, best.value);
      next := Selected(best.value);
    }

    method CopyScores(dst: array<Logit>, logits: array<Logit>)
      requires dst != logits && dst.Length >= p.vocab && logits.Length >= p.vocab
      modifies dst
      ensures dst[..p.vocab] == logits[..p.vocab]
    {
      for i := 0 to p.vocab
        invariant dst[..i] == logits[..i]
      {
        dst[i] := logits[i];
      }
    }

    method CheckRange(s: seq<Token>) returns (ok: bool)
      ensures ok <==> InRange(p, s)
    {
      for i := 0 to |s|
        invariant InRange(p, s[..i])
      {
        if s[i] >= p.vocab {
          return false;
        }
      }
      assert s[..|s|] == s;
      return true;
    }

    /** The initial context, appended to dst, whose capacity is cap; it moves sampleBegin to its end. */
    method PromptInto(dst: seq<Token>, cap: nat, prompt: seq<Token>, prefix: seq<Token>) returns (r: PromptResult)
      modifies this
      ensures r.Begun? <==>
        (|Context(p, prompt, prefix)| <= TEXT_CONTEXT && |dst| + |Context(p, prompt, prefix)| <= cap &&
         InRange(p, Recent(prompt)) && InRange(p, prefix))
      ensures r.Begun? ==> r.tokens == dst + Context(p, prompt, prefix) && sampleBegin == |r.tokens|
      ensures r == TooLong <==> |Context(p, prompt, prefix)| > TEXT_CONTEXT
      ensures !r.Begun? ==> sampleBegin == old(sampleBegin)
    {
      hide InRange, Recent, Context;
      ContextParts(p, prompt, prefix);
      var recent := prompt;
      if |prompt| > TEXT_CONTEXT / 2 - 1 {
        recent := prompt[|prompt| - (TEXT_CONTEXT / 2 - 1)..];
      }
      RecentIs(prompt, recent);
      var need := 1 + (if recent != [] then 1 + |recent| else 0) + |p.taskTokens| +
        (if p.withoutTimestamps then 1 else 0) + |prefix|;
      if need > TEXT_CONTEXT {
        return TooLong;
      }
      if |dst| + need > cap {
        return TooSmall;
      }
      var recentOk := CheckRange(recent);
      var prefixOk := CheckRange(prefix);
      if !recentOk || !prefixOk {
        return OutOfRange;
      }
      var tokens := dst;
      if recent != [] {
        tokens := tokens + [p.sotPrev] + recent;
      }
      ghost var a := if recent != [] then [p.sotPrev] + recent else [];
      Regroup(dst, [p.sotPrev], recent);
      assert tokens == dst + a;
      tokens := tokens + [p.sot] + p.taskTokens;
      ghost var ab := a + ([p.sot] + p.taskTokens);
      Regroup(dst + a, [p.sot], p.taskTokens);
      Regroup(dst, a, [p.sot] + p.taskTokens);
      assert tokens == dst + ab;
      if p.withoutTimestamps {
        tokens := tokens + [p.noTimestamps];
      }
      ghost var abc := ab + if p.withoutTimestamps then [p.noTimestamps] else [];
      Regroup(dst, ab, [p.noTimestamps]);
      assert tokens == dst + abc;
      tokens := tokens + prefix;
      Regroup(dst, abc, prefix);
      sampleBegin := |tokens|;
      r := Begun(tokens);
    }

    /** One window: tokens are chosen from the scores after the context and what is generated,
        until the end token or for half the text context. With the rules on, whatever the scores
        are, the tokens are a run of the grammar, and each is the choice at its place. */
    method Generate(context: seq<Token>, logits: array<Logit>, scores: seq<Token> -> seq<Logit>)
      returns (g: seq<Token>, failed: bool)
      requires p.Valid() && logits.Length == p.vocab && sampleBegin == |context|
      requires forall tokens :: |scores(tokens)| == p.vocab
      modifies logits
      ensures p.rules ==> Grammar(p, g)
      ensures forall k :: 0 <= k < |g| ==> Chosen(p, g[..k], scores(context + g[..k]), g[k])
      ensures forall k :: 0 <= k < |g| - 1 ==> g[k] != p.eot
      ensures !failed && (g == [] || g[|g| - 1] != p.eot) ==>
        |g| >= TEXT_CONTEXT / 2 || |context + g| > TEXT_CONTEXT
      ensures |g| <= TEXT_CONTEXT / 2
      ensures failed ==> (g == [] || g[|g| - 1] != p.eot) && |g| < TEXT_CONTEXT / 2 && |context + g| <= TEXT_CONTEXT
      ensures failed ==> forall i: Token | i < p.vocab ::
        Candidate(scores(context + g)[i]) ==> Bars(p, g, i)
    {
      hide Grammar, Chosen, Bars;
      g, failed := [], false;
      EmptyRun(p);
      while |g| < TEXT_CONTEXT / 2 && |context + g| <= TEXT_CONTEXT
        invariant p.rules ==> Grammar(p, g)
        invariant forall k :: 0 <= k < |g| ==> Chosen(p, g[..k], scores(context + g[..k]), g[k])
        invariant forall k :: 0 <= k < |g| ==> g[k] != p.eot
        invariant |g| <= TEXT_CONTEXT / 2
        decreases TEXT_CONTEXT - |g|
      {
        Evaluate(logits, scores(context + g));
        assert (context + g)[sampleBegin..] == g;
        assert logits[..p.vocab] == scores(context + g);
        var next := SelectNext(logits, logits, context + g);
        if !next.Selected? {
          failed := true;
          return;
        }
        if p.rules {
          ChosenIsUnmasked(p, g, scores(context + g), next.id);
          OneMore(p, g, next.id);
        }
        ghost var was := g;
        g := g + [next.id];
        assert forall k :: 0 <= k < |was| ==> g[..k] == was[..k];
        assert g[..|was|] == was;
        if next.id == p.eot {
          return;
        }
      }
    }

    method Evaluate(logits: array<Logit>, row: seq<Logit>)
      requires |row| == logits.Length
      modifies logits
      ensures logits[..] == row
    {
      for i := 0 to |row|
        invariant logits[..i] == row[..i]
      {
        logits[i] := row[i];
      }
    }
  }

  const TEXT_CONTEXT := 448

  datatype Selection = Selected(id: Token) | NoCandidate | TooFewLogits | OutputTooSmall

  datatype PromptResult = Begun(tokens: seq<Token>) | TooLong | TooSmall | OutOfRange

  predicate InRange(p: Policy, s: seq<Token>) {
    forall i :: 0 <= i < |s| ==> s[i] < p.vocab
  }

  /** The end of the previous text, at most half the context. */
  function Recent(prompt: seq<Token>): (r: seq<Token>)
    ensures |r| == if |prompt| < TEXT_CONTEXT / 2 then |prompt| else TEXT_CONTEXT / 2 - 1
    ensures r == prompt[|prompt| - |r|..]
  {
    if |prompt| > TEXT_CONTEXT / 2 - 1 then prompt[|prompt| - (TEXT_CONTEXT / 2 - 1)..] else prompt[0..]
  }

  lemma RecentIs(prompt: seq<Token>, r: seq<Token>)
    requires |r| == if |prompt| < TEXT_CONTEXT / 2 then |prompt| else TEXT_CONTEXT / 2 - 1
    requires r == prompt[|prompt| - |r|..]
    ensures r == Recent(prompt)
  {
  }

  lemma ContextParts(p: Policy, prompt: seq<Token>, prefix: seq<Token>)
    ensures Context(p, prompt, prefix) ==
      (if Recent(prompt) != [] then [p.sotPrev] + Recent(prompt) else []) + ([p.sot] + p.taskTokens) +
      (if p.withoutTimestamps then [p.noTimestamps] else []) + prefix
  {
    hide Recent;
    var r := if Recent(prompt) != [] then [p.sotPrev] + Recent(prompt) else [];
    assert r + [p.sot] + p.taskTokens == r + ([p.sot] + p.taskTokens);
  }

  lemma Regroup(a: seq<Token>, b: seq<Token>, c: seq<Token>)
    ensures a + b + c == a + (b + c) && a + [] == a
  {
  }

  /** Where each part of the context is. */
  lemma ContextIs(p: Policy, prompt: seq<Token>, prefix: seq<Token>)
    ensures var c := Context(p, prompt, prefix);
      var kept := if |prompt| < TEXT_CONTEXT / 2 then |prompt| else TEXT_CONTEXT / 2 - 1;
      var at := if kept == 0 then 0 else 1 + kept;
      var text := |c| - |prefix|;
      && |c| == at + 1 + |p.taskTokens| + (if p.withoutTimestamps then 1 else 0) + |prefix|
      && c[at] == p.sot && c[at + 1..at + 1 + |p.taskTokens|] == p.taskTokens
      && (kept > 0 ==> c[0] == p.sotPrev && c[1..at] == prompt[|prompt| - kept..])
      && (p.withoutTimestamps ==> c[text - 1] == p.noTimestamps)
      && c[text..] == prefix
  {
  }

  function Context(p: Policy, prompt: seq<Token>, prefix: seq<Token>): seq<Token> {
    (if Recent(prompt) != [] then [p.sotPrev] + Recent(prompt) else []) + [p.sot] + p.taskTokens +
    (if p.withoutTimestamps then [p.noTimestamps] else []) + prefix
  }

  lemma ChosenIsUnmasked(p: Policy, g: seq<Token>, was: seq<Logit>, next: Token)
    requires Chosen(p, g, was, next)
    ensures !Bars(p, g, next)
  {
    hide Bars;
  }

  lemma RuledIs(p: Policy, g: seq<Token>, loud: bool, was: seq<Logit>, now: seq<Logit>)
    requires Ruled(p, g, loud, was, now)
    ensures |now| == |was| && forall i: Token | i < |was| ::
      now[i] == if RuleBars(p, g, i) || (loud && i < p.begin) then NegInf else was[i]
  {
  }

  /** The scores without what is masked whatever they are. */
  function Unbarred(p: Policy, g: seq<Token>, was: seq<Logit>): (r: seq<Logit>)
    ensures |r| == |was| && forall i: Token | i < |was| :: r[i] == if Bars(p, g, i) then NegInf else was[i]
  {
    seq(|was|, i requires 0 <= i < |was| => if Bars(p, g, i) then NegInf else was[i])
  }

  /** The tokens left to choose from. */
  predicate Left(p: Policy, g: seq<Token>, was: seq<Logit>, i: Token)
    requires i < |was|
  {
    !Bars(p, g, i) && Candidate(was[i]) && (p.rules && i < p.begin ==> !Loud(p, Unbarred(p, g, was)))
  }

  /** next is the first of the likeliest tokens left. */
  ghost predicate Chosen(p: Policy, g: seq<Token>, was: seq<Logit>, next: Token) {
    && next < |was| && Left(p, g, was, next)
    && forall i: Token | i < |was| && Left(p, g, was, i) ::
         !Greater(was[i], was[next]) && (i < next ==> was[i] != was[next])
  }

  lemma ChosenIs(p: Policy, g: seq<Token>, loud: bool, was: seq<Logit>, now: seq<Logit>, next: Token)
    requires |now| == |was| && next < |now| && Candidate(now[next])
    requires loud == (p.rules && Loud(p, Unbarred(p, g, was)))
    requires forall i: Token | i < |was| ::
      now[i] == if Bars(p, g, i) || (loud && i < p.begin) then NegInf else was[i]
    requires forall i :: 0 <= i < |now| ==> !Greater(now[i], now[next])
    requires forall i :: 0 <= i < next ==> now[i] != now[next]
    ensures Chosen(p, g, was, next)
  {
    hide Bars, Loud;
  }
}
