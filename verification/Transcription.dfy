// What a call of the speech recognizer in qwen3asr/transcriber.go writes, with and without
// a draft from a partial transcript: the reference that Transcriber.dfy is proved against.

module Transcription {
  import opened Wrappers

  type Token = nat
  type State = seq<real>
  type Row = seq<real>                 // one audio embedding
  type Features = seq<seq<real>>       // [band][frame]

  /** An input position of the decoder: a token, or an audio embedding in a placeholder's place. */
  datatype Item = Tok(id: Token) | Audio(row: Row)

  /** The model. hidden is the decoder's last state, pick the choice of the next token given
      the text before it, embed the audio encoder, rows the embeddings of so many frames. */
  datatype Model = Model(
    hidden: seq<Item> -> State,
    pick: (State, seq<Token>) -> Token,
    embed: Features -> seq<Row>,
    rows: nat -> nat,
    bands: nat,
    step: nat,
    cached: nat,
    audioPad: Token,
    eos0: Token,
    eos1: Token)
  {
    predicate Ends(t: Token) {
      t == eos0 || t == eos1
    }

    /** The rows of complete windows depend only on their frames. */
    ghost predicate Valid() {
      && step > 0 && bands > 0 && rows(0) == 0 && (forall n :: n > 0 ==> rows(n) > 0)
      && (forall f: Features, n: nat :: |f| == bands && Frames(f, n) ==> |embed(f)| == rows(n))
      && (forall f: Features, n: nat, k: nat :: |f| == bands && Frames(f, n) && k <= n && k % step == 0 ==>
            rows(k) <= rows(n) && embed(f)[..rows(k)] == embed(First(f, k)))
    }
  }

  predicate Frames(f: Features, n: nat) {
    forall b :: 0 <= b < |f| ==> |f[b]| == n
  }

  /** The first k frames. */
  function First(f: Features, k: nat): (r: Features) {
    seq(|f|, b requires 0 <= b < |f| => if k <= |f[b]| then f[b][..k] else f[b])
  }

  /** An encoder of one band that makes a row of every frame is such a model. */
  lemma ModelExists() returns (m: Model)
    ensures m.Valid() && forall n :: m.rows(n) == n
  {
    m := Model(_ => [], (_, _) => 0,
               f => if f == [] then [] else seq(|f[0]|, i requires 0 <= i < |f[0]| => [f[0][i]]),
               n => n, 1, 1, 100, 0, 1, 2);
    forall f: Features, n: nat, k: nat | |f| == 1 && Frames(f, n) && k <= n
      ensures m.embed(f)[..k] == m.embed(First(f, k))
    {
      assert |f[0]| == n && First(f, k)[0] == f[0][..k];
    }
  }

  function Toks(s: seq<Token>): (r: seq<Item>)
    ensures |r| == |s|
  {
    seq(|s|, i requires 0 <= i < |s| => Tok(s[i]))
  }

  function Audios(s: seq<Row>): (r: seq<Item>)
    ensures |r| == |s|
  {
    seq(|s|, i requires 0 <= i < |s| => Audio(s[i]))
  }

  predicate HasEnd(m: Model, s: seq<Token>) {
    exists i :: 0 <= i < |s| && m.Ends(s[i])
  }

  /** The state after the prompt and the text written so far. */
  function After(m: Model, prompt: seq<Item>, gen: seq<Token>): State {
    m.hidden(prompt + Toks(gen))
  }

  /** Greedy decoding after gen, to an end token or maxNew tokens: what is written, and the
      state that ended it. */
  function Decode(m: Model, prompt: seq<Item>, gen: seq<Token>, maxNew: nat): (seq<Token>, State)
    requires |gen| < maxNew
    decreases maxNew - |gen|
  {
    var h := After(m, prompt, gen);
    var next := m.pick(h, gen);
    if m.Ends(next) then (gen, h)
    else if |gen| + 1 >= maxNew then (gen + [next], h)
    else Decode(m, prompt, gen + [next], maxNew)
  }

  /** What greedy decoding is: each token is the choice after those before it and ends nothing; it
      goes on until the choice ends it or maxNew tokens are written, and the state is that of the last
      choice. */
  ghost predicate IsGreedy(m: Model, prompt: seq<Item>, g: seq<Token>, h: State, maxNew: nat) {
    && |g| <= maxNew
    && (forall k :: 0 <= k < |g| ==> g[k] == m.pick(m.hidden(prompt + Toks(g[..k])), g[..k]) && !m.Ends(g[k]))
    && if |g| < maxNew then h == m.hidden(prompt + Toks(g)) && m.Ends(m.pick(h, g))
       else maxNew > 0 && h == m.hidden(prompt + Toks(g[..maxNew - 1]))
  }

  lemma {:induction false} DecodeIsGreedy(m: Model, prompt: seq<Item>, gen: seq<Token>, maxNew: nat)
    requires |gen| < maxNew
    requires forall k :: 0 <= k < |gen| ==>
      gen[k] == m.pick(m.hidden(prompt + Toks(gen[..k])), gen[..k]) && !m.Ends(gen[k])
    ensures var (g, h) := Decode(m, prompt, gen, maxNew); gen <= g && IsGreedy(m, prompt, g, h, maxNew)
    decreases maxNew - |gen|
  {
    var next := m.pick(After(m, prompt, gen), gen);
    if !m.Ends(next) {
      var more := gen + [next];
      assert forall k :: 0 <= k < |gen| ==> more[..k] == gen[..k];
      assert more[..|gen|] == gen;
      if |more| < maxNew {
        DecodeIsGreedy(m, prompt, more, maxNew);
      }
    }
  }

  /** How much of draft the model agrees with, from i on. */
  function Agreed(m: Model, prompt: seq<Item>, draft: seq<Token>, i: nat): (n: nat)
    requires i <= |draft|
    ensures i <= n <= |draft|
    ensures n < |draft| ==> m.pick(After(m, prompt, draft[..n]), draft[..n]) != draft[n]
    decreases |draft| - i
  {
    if i == |draft| || m.pick(After(m, prompt, draft[..i]), draft[..i]) != draft[i] then i
    else Agreed(m, prompt, draft, i + 1)
  }

  /** Decoding that checks a draft first: end tokens are looked for only after it. */
  function Drafted(m: Model, prompt: seq<Item>, draft: seq<Token>, maxNew: nat): (seq<Token>, State)
    requires maxNew > 0
  {
    var n := Agreed(m, prompt, draft, 0);
    var h := After(m, prompt, draft[..n]);
    var next := m.pick(h, draft[..n]);
    if m.Ends(next) then (draft[..n], h)
    else if n + 1 >= maxNew then (draft[..n] + [next], h)
    else Decode(m, prompt, draft[..n] + [next], maxNew)
  }

  /** Greedy decoding writes the agreed part of a draft without end tokens. */
  lemma {:induction false} DecodeFollows(m: Model, prompt: seq<Item>, draft: seq<Token>, i: nat, maxNew: nat)
    requires i <= |draft| < maxNew && !HasEnd(m, draft)
    ensures var n := Agreed(m, prompt, draft, i);
      Decode(m, prompt, draft[..i], maxNew) == Decode(m, prompt, draft[..n], maxNew)
    decreases |draft| - i
  {
    if i < |draft| && m.pick(After(m, prompt, draft[..i]), draft[..i]) == draft[i] {
      assert !m.Ends(draft[i]);
      assert draft[..i] + [draft[i]] == draft[..i + 1];
      DecodeFollows(m, prompt, draft, i + 1, maxNew);
    }
  }

  /** A partial transcript never changes the result. */
  lemma DraftInvisible(m: Model, prompt: seq<Item>, draft: seq<Token>, maxNew: nat)
    requires |draft| < maxNew && !HasEnd(m, draft)
    ensures Drafted(m, prompt, draft, maxNew) == Decode(m, prompt, [], maxNew)
  {
    DecodeFollows(m, prompt, draft, 0, maxNew);
    assert draft[..0] == [];
  }

  /** A choice that writes the draft and then other, whatever the state. */
  function Scripted(draft: seq<Token>, other: Token): (State, seq<Token>) -> Token {
    (h: State, before: seq<Token>) => if |before| < |draft| then draft[|before|] else other
  }

  lemma {:induction false} ScriptedAgrees(m: Model, prompt: seq<Item>, draft: seq<Token>, other: Token, i: nat)
    requires m.pick == Scripted(draft, other) && i <= |draft|
    ensures Agreed(m, prompt, draft, i) == |draft|
    decreases |draft| - i
  {
    if i < |draft| {
      ScriptedAgrees(m, prompt, draft, other, i + 1);
    }
  }

  lemma {:induction false} ScriptedStops(m: Model, prompt: seq<Item>, draft: seq<Token>, other: Token, i: nat,
      maxNew: nat)
    requires m.pick == Scripted(draft, other) && i < |draft| && i < maxNew
    requires HasEnd(m, draft[i..]) || |draft| >= maxNew
    ensures |Decode(m, prompt, draft[..i], maxNew).0| <= |draft|
    decreases |draft| - i
  {
    if !m.Ends(draft[i]) && i + 1 < maxNew {
      assert draft[..i] + [draft[i]] == draft[..i + 1];
      if HasEnd(m, draft[i..]) {
        var k :| 0 <= k < |draft[i..]| && m.Ends(draft[i..][k]);
        assert draft[i + 1..][k - 1] == draft[i..][k];
      }
      ScriptedStops(m, prompt, draft, other, i + 1, maxNew);
    }
  }

  lemma {:induction false} DecodeGrows(m: Model, prompt: seq<Item>, gen: seq<Token>, maxNew: nat)
    requires |gen| < maxNew
    ensures |gen| <= |Decode(m, prompt, gen, maxNew).0| <= maxNew
    decreases maxNew - |gen|
  {
    var next := m.pick(After(m, prompt, gen), gen);
    if !m.Ends(next) && |gen| + 1 < maxNew {
      DecodeGrows(m, prompt, gen + [next], maxNew);
    }
  }

  /** A draft changes no model's result exactly when it holds no end token and leaves room
      for a token after it. */
  lemma DraftInvisibleIff(m: Model, prompt: seq<Item>, draft: seq<Token>, maxNew: nat)
    requires maxNew > 0
    ensures !HasEnd(m, draft) && |draft| < maxNew <==>
      forall p: (State, seq<Token>) -> Token ::
        Drafted(m.(pick := p), prompt, draft, maxNew) == Decode(m.(pick := p), prompt, [], maxNew)
  {
    if !HasEnd(m, draft) && |draft| < maxNew {
      forall p: (State, seq<Token>) -> Token
        ensures Drafted(m.(pick := p), prompt, draft, maxNew) == Decode(m.(pick := p), prompt, [], maxNew)
      {
        assert forall x :: m.(pick := p).Ends(x) == m.Ends(x);
        DraftInvisible(m.(pick := p), prompt, draft, maxNew);
      }
    } else {
      var other := m.eos0 + m.eos1 + 1;
      var k := m.(pick := Scripted(draft, other));
      assert forall x :: k.Ends(x) == m.Ends(x);
      assert draft[..0] == [] && draft[0..] == draft;
      ScriptedAgrees(k, prompt, draft, other, 0);
      ScriptedStops(k, prompt, draft, other, 0, maxNew);
      assert draft[..|draft|] == draft;
      if |draft| + 1 < maxNew {
        DecodeGrows(k, prompt, draft + [other], maxNew);
      }
      assert |Drafted(k, prompt, draft, maxNew).0| > |draft|;
    }
  }
}
