// One lane of the speech recognizer: qwen3asr/transcriber.go with the prefix records of
// encoder_prefix.go and decoder_prefix.go, proved to write what Transcription.dfy says.

module Transcriber {
  import opened Wrappers
  import opened Transcription

  const MAX_DRAFT := 192
  const MIN_NEW_TOKENS := 512
  const NEW_TOKENS_PER_SECOND := 16
  const VERIFY_ROWS := 32

  /** The features of the last continuing encode, as far as they can be reused. */
  class EncoderPrefix {
    var features: Features
    var frames: nat
    var seenFrames: nat

    constructor ()
      ensures frames == 0
    {
      features, frames, seenFrames := [], 0, 0;
    }

    method Reset()
      modifies this
      ensures frames == 0 && seenFrames == 0
    {
      frames, seenFrames := 0, 0;
    }

    /** How many leading frames of f, which has n, are those remembered. */
    method Reusable(f: Features, n: nat) returns (k: nat)
      requires Frames(f, n) && (frames > 0 ==> |features| == |f| && Frames(features, frames))
      ensures k > 0 ==> k == frames < n && features == First(f, k)
      ensures seenFrames < n && 0 < frames < n && features == First(f, frames) ==> k == frames
    {
      if frames == 0 || n <= seenFrames || frames >= n {
        return 0;
      }
      for band := 0 to |f|
        invariant features[..band] == First(f, frames)[..band]
      {
        if features[band] != f[band][..frames] {
          return 0;
        }
      }
      return frames;
    }

    /** Remembers the complete windows of f, leaving out the last two frames, which change
        when more audio comes. Caching is optional: there may be no memory for it. */
    method Remember(f: Features, n: nat, same: bool, step: nat, cached: nat)
      requires Frames(f, n) && step > 0
      requires same ==> 0 < frames <= n && frames % step == 0 && features == First(f, frames)
      modifies this
      ensures seenFrames == n
      ensures frames > 0 ==> frames <= n && frames % step == 0 && features == First(f, frames)
      ensures frames > 0 ==> frames + 2 <= n && frames <= cached && (frames + step + 2 > n || frames + step > cached)
    {
      hide Complete;
      var complete := Complete(n, cached, step);
      seenFrames := n;
      if same && complete == frames {
        return;
      }
      frames := 0;
      if complete == 0 {
        return;
      }
      var memory: bool := *;
      if !memory {
        return;
      }
      features := [];
      for band := 0 to |f|
        invariant features == First(f, complete)[..band] && frames == 0 && seenFrames == n
      {
        features := features + [f[band][..complete]];
      }
      frames := complete;
    }
  }

  /** The frames in whole steps, short of the last two and of what a snapshot may hold. */
  function Complete(n: nat, cached: nat, step: nat): (k: nat)
    requires step > 0
    ensures k <= n && k % step == 0
    ensures k > 0 ==> k + 2 <= n && k <= cached
    ensures k + step + 2 > n || k + step > cached
  {
    var last := if n < 2 then 0 else n - 2;
    var most := if last < cached then last else cached;
    hide Whole;
    Whole(most, step)
  }

  /** The most whole steps in n. */
  function Whole(n: nat, step: nat): (k: nat)
    requires step > 0
    ensures k <= n < k + step && k % step == 0
  {
    WholeSteps(n, step);
    n / step * step
  }

  lemma WholeSteps(n: nat, step: nat)
    requires step > 0
    ensures n / step * step <= n < n / step * step + step && n / step * step % step == 0
  {
    NoRemainder(n / step * step, step, n / step);
  }

  lemma NoRemainder(x: nat, step: nat, q: nat)
    requires step > 0 && x == q * step
    ensures x % step == 0
  {
    var p, r := x / step, x % step;
    assert (q - p) * step == r;
    if q - p != 0 {
      Scaled(if q > p then q - p else p - q, step);
    }
  }

  lemma Scaled(d: nat, step: nat)
    requires d >= 1
    ensures d * step >= step
  {
  }

  /** Where the audio rows of the decoder's store came from. */
  class DecoderPrefix {
    var valid: bool
    var anchor: nat
    var rows: nat
    var revision: nat

    constructor ()
      ensures !valid
    {
      valid, anchor, rows, revision := false, 0, 0, 0;
    }

    method Reset()
      modifies this
      ensures !valid
    {
      valid, anchor, rows, revision := false, 0, 0, 0;
    }

    /** The rows at anchor that the encode of revision left unchanged. */
    function Reusable(anchor: nat, stable: nat, revision: nat): nat
      reads this
    {
      if !valid || this.anchor != anchor || this.revision + 1 != revision then 0
      else if rows < stable then rows else stable
    }

    method Remember(anchor: nat, rows: nat, revision: nat)
      modifies this
      ensures valid && this.anchor == anchor && this.rows == rows && this.revision == revision
    {
      valid, this.anchor, this.rows, this.revision := true, anchor, rows, revision;
    }
  }

  /** What the decoder's store holds: a placeholder's embedding matches no token. */
  datatype PrefixKV = PrefixKV(items: seq<Item>, capacity: nat)

  function CommonPrefix(items: seq<Item>, ids: seq<Token>): (n: nat)
    ensures n <= |items| && n <= |ids|
    ensures forall i :: 0 <= i < n ==> items[i] == Tok(ids[i])
    ensures n < |items| && n < |ids| ==> items[n] != Tok(ids[n])
  {
    if items == [] || ids == [] || items[0] != Tok(ids[0]) then 0 else
      1 + CommonPrefix(items[1..], ids[1..])
  }

  /** A placeholder taken for a token comes after some audio. */
  ghost predicate PadsAfterAudio(items: seq<Item>, pad: Token) {
    forall i :: 0 <= i < |items| && items[i] == Tok(pad) ==> exists j :: 0 <= j < i && items[j].Audio?
  }

  /** Reusing the rows of items from keep on is sound: they are what the store computed. */
  ghost predicate Unchanged(stored: seq<Item>, items: seq<Item>, keep: nat, reuse: nat) {
    && keep + reuse <= |stored| && keep + reuse <= |items|
    && stored[..keep] == items[..keep]
    && stored[keep..keep + reuse] == items[keep..keep + reuse]
  }

  /** The items at anchor are these embeddings. */
  ghost predicate HasAudio(items: seq<Item>, anchor: nat, rows: seq<Row>) {
    anchor + |rows| <= |items| && items[anchor..anchor + |rows|] == Audios(rows)
  }

  ghost predicate SameRows(a: seq<Row>, b: seq<Row>, n: nat) {
    n <= |a| && n <= |b| && a[..n] == b[..n]
  }

  function Pads(n: nat, pad: Token): (r: seq<Token>)
    ensures |r| == n && forall i :: 0 <= i < n ==> r[i] == pad
  {
    seq(n, _ => pad)
  }

  /** A prompt: text, the audio, text. */
  function Prompt(pre: seq<Token>, embeds: seq<Row>, post: seq<Token>): seq<Item> {
    Toks(pre) + Audios(embeds) + Toks(post)
  }

  /** The store's common tokens end at the audio. */
  lemma CommonEndsAtAudio(items: seq<Item>, pre: seq<Token>, n: nat, rest: seq<Token>, pad: Token)
    requires PadsAfterAudio(items, pad) && pad !in pre && n > 0
    ensures CommonPrefix(items, pre + Pads(n, pad) + rest) <= |pre|
  {
    var ids := pre + Pads(n, pad) + rest;
    assert ids[|pre|] == pad;
    var c := CommonPrefix(items, ids);
    assert forall i :: 0 <= i < c ==> !items[i].Audio?;
  }

  /** What is common to the store and the prompt's tokens is common to the prompt. */
  lemma CommonIsKept(items: seq<Item>, ids: seq<Token>, pre: seq<Token>, embeds: seq<Row>, rest: seq<Token>,
      keep: nat, pad: Token)
    requires ids == pre + Pads(|embeds|, pad) + rest && keep <= CommonPrefix(items, ids) && keep <= |pre|
    ensures items[..keep] == (Toks(pre) + Audios(embeds) + Toks(rest))[..keep]
  {
    forall i | 0 <= i < keep ensures items[i] == (Toks(pre) + Audios(embeds) + Toks(rest))[i] {
      assert ids[i] == pre[i];
    }
  }

  class Lane {
    const m: Model
    const enc: EncoderPrefix
    const dec: DecoderPrefix
    var kv: PrefixKV
    var embeds: seq<Row>
    var reused: nat       // audio rows the current encode left unchanged
    var revision: nat     // encodes so far, whether or not they succeeded
    var draft: seq<Token>
    var gen: seq<Token>
    var hidden: State
    ghost var stored: seq<Row> // the embeddings dec remembers
    ghost var faults: nat      // calls of the encoder and the evaluator that failed

    /** What is cached is what a full encode gives. */
    ghost predicate EncoderValid()
      reads this, enc
    {
      m.step > 0 && (enc.frames > 0 ==>
        && enc.frames % m.step == 0 && |enc.features| == m.bands && Frames(enc.features, enc.frames)
        && m.rows(enc.frames) <= |embeds| && embeds[..m.rows(enc.frames)] == m.embed(enc.features))
    }

    /** What the decoder remembers is in its store, and has changed since only past reused. */
    ghost predicate DecoderValid()
      reads this, dec
    {
      && |kv.items| <= kv.capacity && PadsAfterAudio(kv.items, m.audioPad)
      && (dec.valid ==>
            && dec.rows == |stored| && dec.revision <= revision && HasAudio(kv.items, dec.anchor, stored)
            && (dec.revision == revision ==> stored == embeds)
            && (dec.revision + 1 == revision ==> SameRows(stored, embeds, reused)))
    }

    ghost predicate Valid()
      reads this, enc, dec
    {
      m.Valid() && EncoderValid() && DecoderValid()
    }

    constructor (m: Model)
      requires m.Valid()
      ensures Valid() && this.m == m && fresh(enc) && fresh(dec)
    {
      this.m := m;
      enc := new EncoderPrefix();
      dec := new DecoderPrefix();
      kv, embeds, reused, revision, draft, gen, hidden, stored := PrefixKV([], 0), [], 0, 0, [], [], [], [];
      faults := 0;
    }

    /** Encodes the n frames of f into embeds. Continuing an earlier encode of the same
        audio's beginning, it computes only the rows after the frames that did not change. */
    method Encode(f: Features, n: nat, continuing: bool) returns (ok: bool)
      requires Valid() && Frames(f, n) && |f| == m.bands
      modifies this`embeds, this`reused, this`revision, this`faults, enc
      ensures faults >= old(faults) && (!ok ==> faults > old(faults))
      ensures Valid() && revision == old(revision) + 1
      ensures ok ==> embeds == m.embed(f)
      ensures reused <= |old(embeds)| && reused <= |embeds| &&
        (reused > 0 ==> ok && embeds[..reused] == old(embeds)[..reused])
      ensures ok && continuing && old(enc.seenFrames) < n && 0 < old(enc.frames) < n ==>
        (old(enc.features) == First(f, old(enc.frames)) ==> reused == m.rows(old(enc.frames)))
    {
      hide PadsAfterAudio, Frames, First, Model.Valid;
      NoFrames(m);
      reused := 0;
      revision := revision + 1;
      var skip := 0;
      if continuing {
        skip := enc.Reusable(f, n);
      } else {
        enc.Reset();
      }
      var kept := m.rows(skip);
      if kept > |embeds| {
        skip, kept := 0, 0;
      }
      KeptRows(m, f, n, skip);
      ok := *;
      if !ok {
        faults := faults + 1;
        var junk: seq<Row> := *;
        embeds := embeds[..kept] + junk;
        enc.Reset();
        return;
      }
      ghost var before := embeds;
      embeds := embeds[..kept] + m.embed(f)[kept..];
      assert embeds == m.embed(f);
      if continuing {
        reused := kept;
        enc.Remember(f, n, skip > 0, m.step, m.cached);
        if enc.frames > 0 {
          KeptRows(m, f, n, enc.frames);
        }
      }
    }

    /** Evaluates items after the first keep stored ones, taking reuse rows as they are, with
        the states after the last k. A failure leaves at least the kept ones. */
    method Evaluate(keep: nat, reuse: nat, items: seq<Item>, k: nat) returns (ok: bool, tail: seq<State>)
      requires Unchanged(kv.items, items, keep, reuse) && keep + k <= |items| && k > 0
      requires |kv.items| <= kv.capacity
      modifies this`kv, this`faults
      ensures faults >= old(faults) && (!ok ==> faults > old(faults))
      ensures |kv.items| <= kv.capacity
      ensures if ok then kv.items == items else kv.items <= old(kv.items)
      ensures ok ==> |tail| == k && forall j :: 0 <= j < k ==> tail[j] == m.hidden(items[..|items| - k + 1 + j])
    {
      tail := [];
      if |items| > kv.capacity {
        faults := faults + 1;
        return false, tail;
      }
      ok := *;
      if !ok {
        faults := faults + 1;
        kv := kv.(items := kv.items[..keep]);
        return;
      }
      // The rows reused are those that evaluating items computes.
      kv := kv.(items := kv.items[..keep] + kv.items[keep..keep + reuse] + items[keep + reuse..]);
      assert kv.items == items;
      tail := seq(k, j requires 0 <= j < k => m.hidden(items[..|items| - k + 1 + j]));
    }

    /** Evaluates one token after the first keep stored items. */
    method Extend(keep: nat, id: Token) returns (ok: bool)
      requires keep <= |kv.items| <= kv.capacity
      modifies this`kv, this`hidden, this`faults
      ensures faults >= old(faults) && (!ok ==> faults > old(faults))
      ensures |kv.items| <= kv.capacity
      ensures if ok then kv.items == old(kv.items)[..keep] + [Tok(id)] && hidden == m.hidden(kv.items)
              else old(kv.items)[..keep] <= kv.items <= old(kv.items)
    {
      if keep + 1 > kv.capacity {
        faults := faults + 1;
        return false;
      }
      ok := *;
      faults := if ok then faults else faults + 1;
      kv := kv.(items := kv.items[..keep] + if ok then [Tok(id)] else []);
      if ok {
        hidden := m.hidden(kv.items);
      }
    }

    /** Where the prompt's evaluation starts, and how many rows after that the store has. */
    method Anchor(pre: seq<Token>, rest: seq<Token>, ids: seq<Token>, prompt: nat) returns (keep: nat, reuse: nat)
      requires DecoderValid() && embeds != [] && m.audioPad !in pre
      requires ids == pre + Pads(|embeds|, m.audioPad) + rest && |pre| + |embeds| < prompt <= |ids|
      ensures keep <= |pre| && Unchanged(kv.items, Toks(pre) + Audios(embeds) + Toks(rest), keep, reuse)
      ensures keep == CommonPrefix(kv.items, ids)
      ensures reuse == if keep == |pre| && dec.valid && dec.anchor == keep && dec.revision + 1 == revision
        then if dec.rows < reused then dec.rows else reused else 0
    {
      keep := CommonPrefix(kv.items, ids);
      if keep > prompt - 1 {
        keep := prompt - 1;
      }
      CommonEndsAtAudio(kv.items, pre, |embeds|, rest, m.audioPad);
      CommonIsKept(kv.items, ids, pre, embeds, rest, keep, m.audioPad);
      reuse := dec.Reusable(keep, reused, revision);
      if ids[keep] != m.audioPad {
        reuse := 0;
      }
      if reuse > 0 {
        assert ids[keep] == m.audioPad && keep == |pre|;
        RowsUnchanged(kv.items, pre, embeds, rest, stored, reuse);
      }
    }

    /** Whatever was encoded, decoded or failed before, the rows that may be reused at an anchor are in
        the store there, and are the current embeddings. */
    lemma ReusableIsCurrent(at: nat)
      requires DecoderValid()
      ensures var r := dec.Reusable(at, reused, revision);
        r > 0 ==> r <= |embeds| && at + r <= |kv.items| && kv.items[at..at + r] == Audios(embeds[..r])
    {
      var r := dec.Reusable(at, reused, revision);
      if r > 0 {
        var held := kv.items[at..at + |stored|];
        forall i | 0 <= i < r ensures kv.items[at + i] == Audio(embeds[i]) {
          assert held[i] == kv.items[at + i] && held[i] == Audio(stored[i]);
          assert stored[..reused][i] == embeds[..reused][i];
        }
        assert kv.items[at..at + r] == Audios(embeds[..r]);
      }
    }

    /** A store with room for need items, which remembers nothing when it is new. */
    method Room(need: nat)
      requires DecoderValid()
      modifies this`kv, dec
      ensures DecoderValid()
    {
      if kv.capacity < need {
        var capacity: nat := *;
        kv := PrefixKV([], capacity);
        dec.Reset();
      }
    }

    /** gen and hidden become those of Decode from the prompt of pre, the audio and post, or of
        Drafted when there is a draft, whatever the store held. */
    method Generate(pre: seq<Token>, post: seq<Token>, maxNew: nat) returns (ok: bool)
      requires Valid() && maxNew > 0 && embeds != [] && m.audioPad !in pre && post != []
      modifies this`kv, this`gen, this`hidden, this`stored, this`faults, dec
      ensures faults >= old(faults) && (!ok ==> faults > old(faults))
      ensures Valid()
      ensures ok ==> (gen, hidden) == if draft == [] then Decode(m, Prompt(pre, embeds, post), [], maxNew)
                                      else Drafted(m, Prompt(pre, embeds, post), draft, maxNew)
    {
      hide PadsAfterAudio, Model.Valid, Prompt, Decode, Drafted, Unchanged, CommonPrefix, Frames, Toks, Audios, Pads,
        HasAudio, SameRows, EncoderValid;
      gen := [];
      var prompt := |pre| + |embeds| + |post|;
      var ids := pre + Pads(|embeds|, m.audioPad) + (post + draft);
      Room(|ids| + maxNew);
      var keep, reuse := Anchor(pre, post + draft, ids, prompt);
      dec.Reset(); // until the prompt is stored, nothing in the store may be reused
      var done := false;
      if draft == [] {
        ok := Prefill(pre, post, keep, reuse);
      } else {
        ok, done := Verify(pre, post, keep, reuse, maxNew);
      }
      if ok {
        ok := GoOn(pre, post, ids, keep, done, maxNew);
      }
      EncoderStays();
    }

    /** With the prompt stored, its rows are remembered, and decoding goes on unless it is done. */
    method GoOn(pre: seq<Token>, post: seq<Token>, ids: seq<Token>, keep: nat, done: bool, maxNew: nat)
      returns (ok: bool)
      requires DecoderValid() && !dec.valid && Prompt(pre, embeds, post) <= kv.items && embeds != [] && post != []
      requires ids == pre + Pads(|embeds|, m.audioPad) + (post + draft) && keep <= |pre| && m.audioPad !in pre
      requires !done ==>
        |gen| < maxNew && kv.items == Prompt(pre, embeds, post) + Toks(gen) && hidden == m.hidden(kv.items)
      modifies this`kv, this`gen, this`hidden, this`stored, this`faults, dec
      ensures faults >= old(faults) && (!ok ==> faults > old(faults))
      ensures DecoderValid()
      ensures if done then ok && gen == old(gen) && hidden == old(hidden)
              else ok ==> (gen, hidden) == Decode(m, Prompt(pre, embeds, post), old(gen), maxNew)
    {
      hide PadsAfterAudio, Prompt, Decode, Toks, Pads, HasAudio, SameRows;
      Note(pre, post, ids, keep);
      if done {
        return true;
      }
      ok := Continue(pre, post, maxNew);
      PromptHolds(pre, embeds, post, kv.items);
    }

    /** The audio rows that the store now holds at the prompt's anchor are remembered, if it is there. */
    method Note(pre: seq<Token>, post: seq<Token>, ids: seq<Token>, keep: nat)
      requires DecoderValid() && !dec.valid && Prompt(pre, embeds, post) <= kv.items && post != []
      requires ids == pre + Pads(|embeds|, m.audioPad) + (post + draft) && keep <= |pre| && m.audioPad !in pre
      modifies this`stored, dec
      ensures DecoderValid()
      ensures dec.valid ==> dec.anchor == |pre| && stored == embeds && dec.rows == |embeds| && dec.revision == revision
    {
      hide PadsAfterAudio, Prompt, Pads, HasAudio;
      PromptHolds(pre, embeds, post, kv.items);
      if ids[keep] == m.audioPad {
        PadAt(pre, |embeds|, post + draft, keep, m.audioPad);
        dec.Remember(keep, |embeds|, revision);
        stored := embeds;
      }
    }

    twostate lemma EncoderStays()
      requires old(EncoderValid()) && embeds == old(embeds)
      requires enc.frames == old(enc.frames) && enc.features == old(enc.features)
      ensures EncoderValid()
    {
    }

    /** Transcribes the n frames of f between pre and post. Whatever partial
        proposes, if it proposes no end token, the text and the state that ended it are those of
        a lane that keeps nothing and decodes from the start. Audio too short for a frame is not
        transcribed. */
    method Transcribe(f: Features, n: nat, pre: seq<Token>, post: seq<Token>, partial: Option<seq<Token>>, seconds: nat)
      returns (ok: bool)
      requires Valid() && Frames(f, n) && |f| == m.bands && m.audioPad !in pre && post != []
      modifies this, enc, dec
      ensures Valid() && (n == 0 ==> !ok)
      ensures n > 0 && !ok ==> faults > old(faults)
      ensures ok && (partial.Some? ==> !HasEnd(m, partial.value)) ==>
        (gen, hidden) == Decode(m, Prompt(pre, m.embed(f), post), [], MaxNew(seconds))
      ensures ok && (partial.Some? ==> !HasEnd(m, partial.value)) ==>
        IsGreedy(m, Prompt(pre, m.embed(f), post), gen, hidden, MaxNew(seconds))
    {
      hide PadsAfterAudio, Model.Valid, Decode, Drafted, Prompt, HasEnd, Frames, IsGreedy;
      if n == 0 {
        return false;
      }
      RowsOf(m, f, n);
      ok := Encode(f, n, partial.Some?);
      if !ok {
        return;
      }
      draft := [];
      if partial.Some? {
        draft := partial.value[..if |partial.value| < MAX_DRAFT then |partial.value| else MAX_DRAFT];
      }
      var maxNew := MaxNew(seconds);
      ok := Generate(pre, post, maxNew);
      if draft != [] && !HasEnd(m, partial.value) {
        PartOfDraft(m, partial.value, |draft|);
        DraftInvisible(m, Prompt(pre, embeds, post), draft, maxNew);
      }
      DecodeIsGreedy(m, Prompt(pre, embeds, post), [], maxNew);
    }

    /** Evaluates the prompt. */
    method Prefill(pre: seq<Token>, post: seq<Token>, keep: nat, reuse: nat) returns (ok: bool)
      requires |kv.items| <= kv.capacity && embeds != [] && m.audioPad !in pre && post != [] && draft == []
      requires keep <= |pre| && PadsAfterAudio(kv.items, m.audioPad)
      requires Unchanged(kv.items, Toks(pre) + Audios(embeds) + Toks(post + draft), keep, reuse)
      modifies this`kv, this`hidden, this`faults
      ensures faults >= old(faults) && (!ok ==> faults > old(faults))
      ensures |kv.items| <= kv.capacity && PadsAfterAudio(kv.items, m.audioPad)
      ensures ok ==> kv.items == Prompt(pre, embeds, post) + Toks([]) && hidden == m.hidden(kv.items)
    {
      hide PadsAfterAudio, Prompt, Unchanged, Toks, Audios;
      ghost var before := kv.items;
      var items := Toks(pre) + Audios(embeds) + Toks(post + draft);
      PromptItems(m, pre, embeds, post, draft);
      var tail: seq<State>;
      ok, tail := Evaluate(keep, reuse, items, 1);
      if !ok {
        PadsOfPrefix(before, kv.items, m.audioPad);
        return;
      }
      assert items[..|items|] == items;
      hidden := tail[0];
      PadsOfPrompt(pre, embeds, post, kv.items, m.audioPad);
    }

    /** When done, gen and hidden are those of Drafted; otherwise Decode from gen is, and the store
        and hidden are ready for it. */
    method Verify(pre: seq<Token>, post: seq<Token>, keep: nat, reuse: nat, maxNew: nat) returns (ok: bool, done: bool)
      requires |kv.items| <= kv.capacity && maxNew > 0 && embeds != [] && m.audioPad !in pre && post != [] &&
        draft != []
      requires keep <= |pre| && gen == [] && PadsAfterAudio(kv.items, m.audioPad)
      requires Unchanged(kv.items, Toks(pre) + Audios(embeds) + Toks(post + draft), keep, reuse)
      modifies this`kv, this`gen, this`hidden, this`faults
      ensures faults >= old(faults) && (!ok ==> faults > old(faults))
      ensures |kv.items| <= kv.capacity && PadsAfterAudio(kv.items, m.audioPad)
      ensures ok ==> Prompt(pre, embeds, post) <= kv.items
      ensures ok && done ==> (gen, hidden) == Drafted(m, Prompt(pre, embeds, post), draft, maxNew)
      ensures ok && !done ==>
        && |gen| < maxNew && kv.items == Prompt(pre, embeds, post) + Toks(gen) && hidden == m.hidden(kv.items)
        && Decode(m, Prompt(pre, embeds, post), gen, maxNew) == Drafted(m, Prompt(pre, embeds, post), draft, maxNew)
    {
      hide PadsAfterAudio, Prompt, Decode, Drafted, Unchanged, Agreed, After, Toks, Audios;
      ghost var p, before := Prompt(pre, embeds, post), kv.items;
      var prompt := |pre| + |embeds| + |post|;
      var items := Toks(pre) + Audios(embeds) + Toks(post + draft);
      PromptItems(m, pre, embeds, post, draft);
      done := false;
      var tail: seq<State>;
      ok, tail := Evaluate(keep, reuse, items, |draft| + 1);
      if !ok {
        PadsOfPrefix(before, kv.items, m.audioPad);
        return;
      }
      PadsOfPrompt(pre, embeds, post, kv.items, m.audioPad);
      ok, done := Accept(p, tail, maxNew);
      PadsOfPrompt(pre, embeds, post, kv.items, m.audioPad);
    }

    /** The same, from the states after the prompt and each token of the draft. */
    method Accept(ghost p: seq<Item>, tail: seq<State>, maxNew: nat) returns (ok: bool, done: bool)
      requires |kv.items| <= kv.capacity && maxNew > 0 && kv.items == p + Toks(draft) && gen == []
      requires |tail| == |draft| + 1 && forall i :: 0 <= i <= |draft| ==> tail[i] == After(m, p, draft[..i])
      modifies this`kv, this`gen, this`hidden, this`faults
      ensures faults >= old(faults) && (!ok ==> faults > old(faults))
      ensures |kv.items| <= kv.capacity && p <= kv.items
      ensures ok && done ==> (gen, hidden) == Drafted(m, p, draft, maxNew)
      ensures ok && !done ==>
        && |gen| < maxNew && kv.items == p + Toks(gen) && hidden == m.hidden(kv.items)
        && Decode(m, p, gen, maxNew) == Drafted(m, p, draft, maxNew)
    {
      hide Decode, Drafted, Agreed, After, Toks;
      var agreed, next := CheckDraft(p, tail);
      DraftedBy(m, p, draft, maxNew, agreed, next);
      gen := draft[..agreed];
      // The state that chose next.
      hidden := tail[agreed];
      if m.Ends(next) {
        return true, true;
      }
      gen := gen + [next];
      if |gen| >= maxNew {
        return true, true;
      }
      // What the store holds of the draft past agreed is overwritten.
      PromptSlices(p, draft, agreed);
      ok := Extend(|kv.items| - |draft| + agreed, next);
      done := false;
    }

    /** agreed is what Agreed defines and next the choice there, found VERIFY_ROWS states at a
        time. */
    method CheckDraft(ghost p: seq<Item>, tail: seq<State>) returns (agreed: nat, next: Token)
      requires |tail| == |draft| + 1 && forall i :: 0 <= i <= |draft| ==> tail[i] == After(m, p, draft[..i])
      ensures agreed == Agreed(m, p, draft, 0) && next == m.pick(tail[agreed], draft[..agreed])
    {
      hide Agreed, After;
      var k, r0, found := |tail|, 0, false;
      agreed, next := 0, 0;
      while r0 < k && !found
        invariant !found ==> r0 <= k && Agreed(m, p, draft, 0) == Agreed(m, p, draft, if r0 < k then r0 else |draft|)
        invariant !found ==> r0 < k
        invariant found ==> agreed == Agreed(m, p, draft, 0) && next == m.pick(tail[agreed], draft[..agreed])
        decreases !found, k - r0
      {
        var n := if k - r0 < VERIFY_ROWS then k - r0 else VERIFY_ROWS;
        for j := 0 to n
          invariant r0 + j < k || found
          invariant !found && Agreed(m, p, draft, 0) == Agreed(m, p, draft, r0 + j)
        {
          var i := r0 + j;
          var a := m.pick(tail[i], draft[..i]);
          AgreedStep(m, p, draft, i);
          if i == |draft| || a != draft[i] {
            agreed, next, found := i, a, true;
            break;
          }
        }
        r0 := r0 + VERIFY_ROWS;
      }
    }

    /** Decodes on from gen, one token at a time. */
    method Continue(pre: seq<Token>, post: seq<Token>, maxNew: nat) returns (ok: bool)
      requires |kv.items| <= kv.capacity && embeds != [] && m.audioPad !in pre
      requires |gen| < maxNew && kv.items == Prompt(pre, embeds, post) + Toks(gen) && hidden == m.hidden(kv.items)
      modifies this`kv, this`gen, this`hidden, this`faults
      ensures faults >= old(faults) && (!ok ==> faults > old(faults))
      ensures |kv.items| <= kv.capacity && Prompt(pre, embeds, post) <= kv.items && PadsAfterAudio(kv.items, m.audioPad)
      ensures ok ==> (gen, hidden) == Decode(m, Prompt(pre, embeds, post), old(gen), maxNew)
    {
      hide PadsAfterAudio, Prompt, Decode;
      ghost var p := Prompt(pre, embeds, post);
      while true
        invariant |kv.items| <= kv.capacity && |gen| < maxNew
        invariant kv.items == p + Toks(gen) && hidden == m.hidden(kv.items)
        invariant Decode(m, p, gen, maxNew) == Decode(m, p, old(gen), maxNew)
        invariant faults >= old(faults)
        decreases maxNew - |gen|
      {
        PadsOfPrompt(pre, embeds, post, kv.items, m.audioPad);
        DecodeStep(m, p, gen, maxNew);
        var next := m.pick(hidden, gen);
        if m.Ends(next) {
          return true;
        }
        gen := gen + [next];
        if |gen| >= maxNew {
          return true;
        }
        ok := Extend(|kv.items|, next);
        if !ok {
          PadsOfPrompt(pre, embeds, post, kv.items, m.audioPad);
          return;
        }
        assert kv.items == p + Toks(gen);
      }
    }
  }

  function MaxNew(seconds: nat): nat {
    var n := seconds * NEW_TOKENS_PER_SECOND;
    if n < MIN_NEW_TOKENS then MIN_NEW_TOKENS else n
  }

  /** Sixteen tokens for each second of audio, and no fewer than for thirty-two seconds. */
  lemma MaxNewGrows(seconds: nat)
    ensures seconds <= 32 ==> MaxNew(seconds) == 512
    ensures seconds >= 32 ==> MaxNew(seconds + 1) == MaxNew(seconds) + 16
  {
  }

  /** The prompt, item by item. */
  lemma PromptIs(pre: seq<Token>, embeds: seq<Row>, post: seq<Token>)
    ensures var p := Prompt(pre, embeds, post);
      && |p| == |pre| + |embeds| + |post|
      && (forall i :: 0 <= i < |pre| ==> p[i] == Tok(pre[i]))
      && (forall i :: 0 <= i < |embeds| ==> p[|pre| + i] == Audio(embeds[i]))
      && forall i :: 0 <= i < |post| ==> p[|pre| + |embeds| + i] == Tok(post[i])
  {
  }

  lemma PartOfDraft(m: Model, draft: seq<Token>, n: nat)
    requires n <= |draft| && !HasEnd(m, draft)
    ensures !HasEnd(m, draft[..n])
  {
  }

  lemma RowsOf(m: Model, f: Features, n: nat)
    requires m.Valid() && |f| == m.bands && Frames(f, n)
    ensures |m.embed(f)| == m.rows(n) && (n > 0 ==> m.rows(n) > 0)
  {
  }

  lemma PromptItems(m: Model, pre: seq<Token>, embeds: seq<Row>, post: seq<Token>, draft: seq<Token>)
    ensures Toks(pre) + Audios(embeds) + Toks(post + draft) == Prompt(pre, embeds, post) + Toks(draft)
    ensures |Prompt(pre, embeds, post)| == |pre| + |embeds| + |post|
    ensures forall i :: 0 <= i <= |draft| ==>
      m.hidden((Prompt(pre, embeds, post) + Toks(draft))[..|pre| + |embeds| + |post| + i]) ==
        After(m, Prompt(pre, embeds, post), draft[..i])
  {
    var p := Prompt(pre, embeds, post);
    assert Toks(post + draft) == Toks(post) + Toks(draft);
    forall i | 0 <= i <= |draft|
      ensures m.hidden((p + Toks(draft))[..|pre| + |embeds| + |post| + i]) == After(m, p, draft[..i])
    {
      PromptSlices(p, draft, i);
    }
  }

  lemma PromptSlices(p: seq<Item>, draft: seq<Token>, i: nat)
    requires i <= |draft|
    ensures (p + Toks(draft))[..|p| + i] == p + Toks(draft[..i])
    ensures forall x :: p + Toks(draft[..i]) + [Tok(x)] == p + Toks(draft[..i] + [x])
  {
  }

  /** The kept prefix ends at the audio exactly when what follows it is a placeholder. */
  lemma PadAt(pre: seq<Token>, n: nat, rest: seq<Token>, keep: nat, pad: Token)
    requires keep <= |pre| && pad !in pre
    requires (pre + Pads(n, pad) + rest)[keep..] != [] && (pre + Pads(n, pad) + rest)[keep] == pad
    ensures keep == |pre|
  {
  }

  lemma PadsOfPrefix(items: seq<Item>, kept: seq<Item>, pad: Token)
    requires PadsAfterAudio(items, pad) && kept <= items
    ensures PadsAfterAudio(kept, pad)
  {
  }

  lemma PadsOfPrompt(pre: seq<Token>, embeds: seq<Row>, post: seq<Token>, items: seq<Item>, pad: Token)
    requires Prompt(pre, embeds, post) <= items && embeds != [] && pad !in pre
    ensures PadsAfterAudio(items, pad)
  {
    var p := Prompt(pre, embeds, post);
    assert items[|pre|] == p[|pre|];
    forall i | 0 <= i < |pre| ensures items[i] != Tok(pad) {
      assert items[i] == p[i] && p[i] == Tok(pre[i]);
    }
    assert items[|pre|].Audio?;
  }

  lemma PromptHolds(pre: seq<Token>, embeds: seq<Row>, post: seq<Token>, items: seq<Item>)
    requires Prompt(pre, embeds, post) <= items
    ensures HasAudio(items, |pre|, embeds)
  {
    var p := Prompt(pre, embeds, post);
    assert items[|pre|..|pre| + |embeds|] == p[|pre|..|pre| + |embeds|];
  }

  lemma AgreedStep(m: Model, p: seq<Item>, draft: seq<Token>, i: nat)
    requires i <= |draft|
    ensures Agreed(m, p, draft, i) ==
      if i == |draft| || m.pick(After(m, p, draft[..i]), draft[..i]) != draft[i] then i else Agreed(m, p, draft, i + 1)
  {
  }

  lemma DecodeStep(m: Model, p: seq<Item>, gen: seq<Token>, maxNew: nat)
    requires |gen| < maxNew
    ensures var h := m.hidden(p + Toks(gen));
      var next := m.pick(h, gen);
      Decode(m, p, gen, maxNew) ==
        if m.Ends(next) then (gen, h)
        else if |gen| + 1 >= maxNew then (gen + [next], h)
        else Decode(m, p, gen + [next], maxNew)
  {
  }

  lemma DraftedBy(m: Model, p: seq<Item>, draft: seq<Token>, maxNew: nat, agreed: nat, next: Token)
    requires maxNew > 0 && agreed == Agreed(m, p, draft, 0)
    requires next == m.pick(After(m, p, draft[..agreed]), draft[..agreed])
    ensures Drafted(m, p, draft, maxNew) ==
      if m.Ends(next) then (draft[..agreed], After(m, p, draft[..agreed]))
      else if agreed + 1 >= maxNew then (draft[..agreed] + [next], After(m, p, draft[..agreed]))
      else Decode(m, p, draft[..agreed] + [next], maxNew)
  {
  }

  /** Rows that did not change since the store computed them are those of the prompt. */
  lemma RowsUnchanged(items: seq<Item>, pre: seq<Token>, embeds: seq<Row>, rest: seq<Token>, stored: seq<Row>,
      reuse: nat)
    requires HasAudio(items, |pre|, stored) && SameRows(stored, embeds, reuse)
    requires items[..|pre|] == (Toks(pre) + Audios(embeds) + Toks(rest))[..|pre|]
    ensures Unchanged(items, Toks(pre) + Audios(embeds) + Toks(rest), |pre|, reuse)
  {
    var now := Toks(pre) + Audios(embeds) + Toks(rest);
    forall i | |pre| <= i < |pre| + reuse ensures items[i] == now[i] {
      var j := i - |pre|;
      assert items[i] == items[|pre|..|pre| + |stored|][j];
      assert stored[j] == stored[..reuse][j] == embeds[..reuse][j];
    }
    assert items[|pre|..|pre| + reuse] == now[|pre|..|pre| + reuse];
  }

  lemma NoFrames(m: Model)
    requires m.Valid()
    ensures m.step > 0 && m.rows(0) == 0
  {
  }

  /** The rows of the first k frames, when they are whole windows. */
  lemma KeptRows(m: Model, f: Features, n: nat, k: nat)
    requires m.Valid() && |f| == m.bands && Frames(f, n) && k <= n && k % m.step == 0
    ensures |m.embed(f)| == m.rows(n) && m.rows(k) <= m.rows(n) && m.embed(f)[..m.rows(k)] == m.embed(First(f, k))
    ensures Frames(First(f, k), k) && |First(f, k)| == |f|
  {
  }
}
