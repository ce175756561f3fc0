// The speech lane of qwen3tts/synth.go: a worker queues frames of samples with the text they
// have voiced, a reader takes samples, and Voiced says how much text the samples so far speak.
// Each method of the lane is one section under its mutex, or one step out of it, or part of one.

/** How an utterance reaches the worker: Begin counts it and, once out of the mutex, wakes the
    worker through a channel that holds one wake-up; the worker takes the wake-up, and then, in
    the mutex, the utterance that is current by then. */
module Wakeups {

  datatype Worker = Waiting | Woken | Speaking

  /** Utterances begun, the one of the last pass, the channel's wake-up, and the calls of Begin
      that have counted their utterance and are yet to wake the worker. */
  datatype State = State(id: nat, cur: nat, begun: bool, waking: nat, worker: Worker)

  datatype Event = Begins | Wakes | Receives | Starts | Ends

  const START := State(0, 0, false, 0, Waiting)

  predicate Can(s: State, e: Event) {
    match e
    case Begins => true
    case Wakes => s.waking > 0
    case Receives => s.worker == Waiting && s.begun
    case Starts => s.worker == Woken
    case Ends => s.worker == Speaking
  }

  function After(s: State, e: Event): State
    requires Can(s, e)
  {
    match e
    case Begins => s.(id := s.id + 1, waking := s.waking + 1)
    case Wakes => s.(waking := s.waking - 1, begun := true)
    case Receives => s.(begun := false, worker := Woken)
    case Starts => s.(cur := s.id, worker := Speaking)
    case Ends => s.(worker := Waiting)
  }

  /** Any interleaving of callers and worker from s. */
  predicate Run(s: State, es: seq<Event>)
    decreases |es|
  {
    es == [] || (Can(s, es[0]) && Run(After(s, es[0]), es[1..]))
  }

  function End(s: State, es: seq<Event>): State
    requires Run(s, es)
    decreases |es|
  {
    if es == [] then s else End(After(s, es[0]), es[1..])
  }

  /** The utterance of each pass. */
  function Passes(s: State, es: seq<Event>): seq<nat>
    requires Run(s, es)
    decreases |es|
  {
    if es == [] then [] else
      (if es[0] == Starts then [s.id] else []) + Passes(After(s, es[0]), es[1..])
  }

  /** Something is on its way to the worker. */
  predicate Outstanding(s: State) {
    s.begun || s.waking > 0
  }

  /** An utterance not yet worked on is on its way. */
  predicate Comes(s: State) {
    s.cur <= s.id && (s.cur < s.id ==> Outstanding(s) || s.worker == Woken)
  }

  /** No utterance is lost: in every run, while the worker waits and nothing wakes it, it has
      worked on the last one. */
  lemma {:induction false} NoneLost(s: State, es: seq<Event>)
    requires Comes(s) && Run(s, es)
    ensures Comes(End(s, es))
    ensures End(s, es).worker == Waiting && !Outstanding(End(s, es)) ==> End(s, es).cur == End(s, es).id
    decreases |es|
  {
    if es != [] {
      NoneLost(After(s, es[0]), es[1..]);
    }
  }

  /** Passes never go back to an earlier utterance. */
  lemma {:induction false} PassesAscend(s: State, es: seq<Event>)
    requires Run(s, es) && s.cur <= s.id
    ensures forall i :: 0 <= i < |Passes(s, es)| ==> s.id <= Passes(s, es)[i]
    ensures forall i, j :: 0 <= i < j < |Passes(s, es)| ==> Passes(s, es)[i] <= Passes(s, es)[j]
    decreases |es|
  {
    if es != [] {
      PassesAscend(After(s, es[0]), es[1..]);
    }
  }

  /** The utterance at hand, or one before it, cannot come again. */
  predicate Settled(s: State, u: nat) {
    u < s.id || (u == s.id && !Outstanding(s) && s.worker != Woken)
  }

  lemma {:induction false} SettledStays(s: State, u: nat, es: seq<Event>)
    requires Settled(s, u) && Run(s, es)
    ensures u !in Passes(s, es)
    decreases |es|
  {
    if es != [] {
      SettledStays(After(s, es[0]), u, es[1..]);
    }
  }

  /** While the worker speaks an utterance, some run makes another pass over it exactly when a
      wake-up is still on its way and no other utterance has begun. */
  lemma AnotherPassIff(s: State)
    requires s.worker == Speaking && s.cur <= s.id
    ensures (exists es :: Run(s, es) && s.cur in Passes(s, es)) <==> s.id == s.cur && Outstanding(s)
  {
    if s.id == s.cur && Outstanding(s) {
      if s.begun {
        ShortRun(s);
      } else {
        var t := After(s, Wakes);
        ShortRun(t);
        Step(s, Wakes, [Ends, Receives, Starts]);
      }
    } else {
      forall es | Run(s, es) ensures s.cur !in Passes(s, es) {
        SettledStays(s, s.cur, es);
      }
    }
  }

  lemma ShortRun(s: State)
    requires s.worker == Speaking && s.begun
    ensures Run(s, [Ends, Receives, Starts]) && Passes(s, [Ends, Receives, Starts]) == [s.id]
  {
    var a := After(s, Ends);
    Step(After(a, Receives), Starts, []);
    Step(a, Receives, [Starts]);
    Step(s, Ends, [Receives, Starts]);
    assert [Ends] + ([Receives] + ([Starts] + [])) == [Ends, Receives, Starts];
  }

  /** Begin lands after the worker took the wake-up of the one before and before it looks which
      utterance is current: the second utterance has two passes. */
  lemma TwoPasses()
    ensures exists es :: Run(START, es) && Passes(START, es) == [2, 2]
  {
    hide Run, Passes;
    ShortRun(State(2, 2, true, 0, Speaking));
    var late := [Starts] + [Ends, Receives, Starts];
    Step(State(2, 0, true, 0, Woken), Starts, [Ends, Receives, Starts]);
    var es := [Begins, Wakes] + late;
    BeginTo(State(1, 0, false, 0, Woken), late);
    Step(State(1, 0, true, 0, Waiting), Receives, es);
    BeginTo(START, [Receives] + es);
  }

  /** A whole Begin makes no pass. */
  lemma BeginTo(s: State, es: seq<Event>)
    requires var t := After(After(s, Begins), Wakes); Run(t, es)
    ensures Run(s, [Begins, Wakes] + es)
    ensures Passes(s, [Begins, Wakes] + es) == Passes(After(After(s, Begins), Wakes), es)
  {
    Step(After(s, Begins), Wakes, es);
    Step(s, Begins, [Wakes] + es);
    assert [Begins, Wakes] + es == [Begins] + ([Wakes] + es);
  }

  lemma Step(s: State, e: Event, es: seq<Event>)
    requires Can(s, e) && Run(After(s, e), es)
    ensures Run(s, [e] + es)
    ensures Passes(s, [e] + es) == (if e == Starts then [s.id] else []) + Passes(After(s, e), es)
  {
    assert ([e] + es)[1..] == es;
  }

  /** Every Begin comes when the worker has taken up the utterance before. */
  predicate Patient(s: State, es: seq<Event>)
    requires Run(s, es)
    decreases |es|
  {
    es == [] || ((es[0] == Begins ==> !Outstanding(s) && s.worker != Woken) && Patient(After(s, es[0]), es[1..]))
  }

  /** At most one wake-up is anywhere, and it is that of an utterance not yet worked on. */
  predicate Single(s: State) {
    && s.waking + (if s.begun then 1 else 0) + (if s.worker == Woken then 1 else 0) <= 1
    && s.cur <= s.id && (Outstanding(s) || s.worker == Woken ==> s.cur < s.id)
  }

  /** Then every utterance has one pass at most. */
  lemma {:induction false} OnePassEach(s: State, es: seq<Event>)
    requires Single(s) && Run(s, es) && Patient(s, es)
    ensures forall i :: 0 <= i < |Passes(s, es)| ==> s.cur < Passes(s, es)[i]
    ensures forall i, j :: 0 <= i < j < |Passes(s, es)| ==> Passes(s, es)[i] < Passes(s, es)[j]
    decreases |es|
  {
    if es != [] {
      OnePassEach(After(s, es[0]), es[1..]);
    }
  }
}

module Synth {
  import opened Wrappers
  import R = Ring
  import W = Wakeups

  type Sample = real
  type Text = seq<char>

  const FRAME_SAMPLES := 1920

  function Flat(frames: seq<seq<Sample>>): seq<Sample> {
    if frames == [] then [] else Flat(frames[..|frames| - 1]) + frames[|frames| - 1]
  }

  predicate Framed(frames: seq<seq<Sample>>) {
    forall i :: 0 <= i < |frames| ==> |frames[i]| == FRAME_SAMPLES
  }

  lemma {:induction false} FlatLength(frames: seq<seq<Sample>>)
    requires Framed(frames)
    ensures |Flat(frames)| == FRAME_SAMPLES * |frames|
  {
    if frames != [] {
      FlatLength(frames[..|frames| - 1]);
    }
  }

  predicate Ascending(s: seq<nat>) {
    forall i, j :: 0 <= i <= j < |s| ==> s[i] <= s[j]
  }

  predicate AtMost(s: seq<nat>, n: nat) {
    forall i :: 0 <= i < |s| ==> s[i] <= n
  }

  lemma AscendingJoins(a: seq<nat>, b: seq<nat>, n: nat)
    requires Ascending(a) && Ascending(b) && AtMost(a, n) && forall i :: 0 <= i < |b| ==> n <= b[i]
    ensures Ascending(a + b)
  {
  }

  lemma JoinedAscendsIff(a: seq<nat>, b: seq<nat>)
    requires Ascending(b) && a != [] && b != []
    ensures Ascending(a + b) <==> Ascending(a) && a[|a| - 1] <= b[0]
  {
    var s := a + b;
    if Ascending(a) && a[|a| - 1] <= b[0] {
      AscendingJoins(a, b, b[0]);
    }
    if Ascending(s) {
      assert s[|a| - 1] <= s[|a|];
      forall i, j | 0 <= i <= j < |a| ensures a[i] <= a[j] {
        assert s[i] <= s[j];
      }
    }
  }

  /** The text voiced when the talker attends to token at. */
  function VoicedAt(aligned: bool, textEnd: seq<nat>, at: nat): nat {
    if !aligned || textEnd == [] then 0
    else textEnd[if at < |textEnd| then at else |textEnd| - 1]
  }

  /** Where the attended token ends in the text, or the last one when attention is past it. */
  lemma VoicedAtTells(aligned: bool, textEnd: seq<nat>, at: nat)
    ensures !aligned || textEnd == [] ==> VoicedAt(aligned, textEnd, at) == 0
    ensures aligned && at < |textEnd| ==> VoicedAt(aligned, textEnd, at) == textEnd[at]
    ensures aligned && 0 < |textEnd| <= at ==> VoicedAt(aligned, textEnd, at) == textEnd[|textEnd| - 1]
  {
  }

  lemma VoicedAtGrows(aligned: bool, textEnd: seq<nat>, more: seq<nat>, at: nat, best: nat)
    requires Ascending(textEnd + more)
    ensures VoicedAt(aligned, textEnd, at) <= VoicedAt(aligned, textEnd + more, at + best)
  {
    var all := textEnd + more;
    if aligned && textEnd != [] {
      var i := if at < |textEnd| then at else |textEnd| - 1;
      var j := if at + best < |all| then at + best else |all| - 1;
      assert all[i] <= all[j];
    }
  }

  /** was with v copied over it from start on, and on from its own start where it ends. */
  function Round(was: seq<Sample>, start: nat, v: seq<Sample>): seq<Sample>
    requires start < |was| && |v| <= |was|
  {
    var k := if |v| < |was| - start then |v| else |was| - start;
    (v[k..] + was[|v| - k..start]) + v[..k] + was[start + k..]
  }

  lemma CopiedTwice(was: seq<Sample>, mid: seq<Sample>, start: nat, v: seq<Sample>, m: nat)
    requires m <= start && start + |v| <= |was| == |mid|
    requires mid[..start + |v|] == was[..start] + v && mid[start + |v|..] == was[start + |v|..]
    ensures mid[m..] == was[m..start] + v + was[start + |v|..]
  {
    assert mid == mid[..start + |v|] + mid[start + |v|..];
  }

  method CopyRound(a: array<Sample>, start: nat, v: seq<Sample>)
    requires start < a.Length && |v| <= a.Length
    modifies a
    ensures a[..] == Round(old(a[..]), start, v)
  {
    ghost var was := a[..];
    var k := if |v| < a.Length - start then |v| else a.Length - start;
    ghost var m := |v| - k;
    R.CopyTo(a, start, v[..k]);
    ghost var mid := a[..];
    R.CopyTo(a, 0, v[k..]);
    assert a[..] == v[k..] + mid[m..];
    CopiedTwice(was, mid, start, v[..k], m);
  }

  /** A frame copied behind the last sample is queued. */
  lemma FrameQueued(was: seq<Sample>, head: nat, n: nat, v: seq<Sample>)
    requires head < |was| && n + |v| <= |was| && n < |was|
    ensures var now := Round(was, R.Slot(head, n, |was|), v);
      |now| == |was| && R.Queue(now, head, n + |v|) == R.Queue(was, head, n) + v
  {
    var at := R.Slot(head, n, |was|);
    var now := Round(was, at, v);
    forall i | 0 <= i < n + |v| ensures R.Queue(now, head, n + |v|)[i] == (R.Queue(was, head, n) + v)[i] {
      var slot := R.Slot(head, i, |was|);
      if i >= n {
        assert slot == if at + (i - n) < |was| then at + (i - n) else at + (i - n) - |was|;
      }
    }
  }

  /** Why a call does no work: the lane is closed, no utterance takes it, its context is done, or
      the utterance failed. */
  datatype Error = Closed | Idle | Cancelled | Failed

  datatype Reading = Samples(n: nat) | Refused(error: Error) | EndOfSpeech | Wait

  datatype Taking = Taken | TextEnded | MoreToCome | TakingDropped | TakingClosed

  datatype Status = Queued | NoRoom | Dropped | QueueRefused(error: Error)

  class Lane {
    const audio: array<Sample>
    const aligned: bool
    // Shared, under the mutex.
    var id: nat
    var cur: nat
    var head: nat
    var held: nat
    var read: nat
    /** One mark for each of frames: how far into written it speaks. */
    var marks: seq<nat>
    var written: Text
    var taken: nat
    var ended: bool
    var over: bool
    var failed: bool
    var closed: bool
    // The worker's own.
    var pending: Text
    var tokenized: nat
    var textEnd: seq<nat>
    var at: nat
    var inFlight: bool
    var flight: nat
    // How utterances reach the worker.
    var begun: bool
    ghost var waking: nat
    ghost var worker: W.Worker
    /** Whether the pass is not its utterance's first; the marks and the text that were there
        when it began; and whether any pass over the utterance failed. */
    ghost var again: bool
    ghost var kept: nat
    ghost var base: nat
    ghost var broke: bool
    /** The frames queued and the samples read in this utterance. */
    ghost var frames: seq<seq<Sample>>
    ghost var given: seq<Sample>

    /** What was read and what is held are the queued frames, in order. */
    ghost predicate Store()
      reads this, audio
    {
      && head < audio.Length && held <= audio.Length && cur <= id
      && Framed(frames) && |marks| == |frames| && |given| == read
      && given + R.Queue(audio[..], head, held) == Flat(frames)
    }

    /** The marks of a pass ascend, and all stay within the text. */
    ghost predicate Marked()
      reads this
    {
      AtMost(marks, |written|) &&
      if id != cur then marks == [] else kept <= |marks| && Ascending(marks[kept..]) && (!again ==> kept == 0)
    }

    /** The worker's text is the text it took in this pass. */
    ghost predicate Texted()
      reads this
    {
      if id != cur then taken == 0 else
        && base + tokenized + |pending| == taken <= |written| && (!again ==> base == 0)
        && Ascending(textEnd) && AtMost(textEnd, tokenized)
        && kept <= |marks| && AtMost(marks[kept..], VoicedAt(aligned, textEnd, at))
        && (inFlight ==> flight <= VoicedAt(aligned, textEnd, at) && AtMost(marks[kept..], flight))
    }

    /** What the lane says of the utterance's passes. */
    ghost predicate Ended()
      reads this
    {
      && (inFlight ==> worker == W.Speaking) && (failed ==> broke) && (broke ==> over)
      && (id != cur ==> !over)
      && (id == cur && !again ==> (over ==> failed == broke) && (worker == W.Speaking ==> !over))
    }

    ghost function Signals(): W.State
      reads this
    {
      W.State(id, cur, begun, waking, worker)
    }

    ghost predicate Valid()
      reads this, audio
    {
      Store() && Marked() && Texted() && Ended()
    }

    constructor (frames: nat, aligned: bool)
      requires frames > 0
      ensures Valid() && fresh(audio) && audio.Length == frames * FRAME_SAMPLES && this.aligned == aligned
      ensures Signals() == W.START && !closed && !inFlight
    {
      audio := new Sample[frames * FRAME_SAMPLES](_ => 0.0);
      this.aligned := aligned;
      id, cur, head, held, read, marks, written, taken := 0, 0, 0, 0, 0, [], [], 0;
      ended, over, failed, closed := false, false, false, false;
      pending, tokenized, textEnd, at, inFlight, flight := [], 0, [], 0, false, 0;
      begun, waking, worker := false, 0, W.Waiting;
      again, kept, base, broke := false, 0, 0, false;
      this.frames, given := [], [];
    }

    /** A new utterance drops what is left of the one before. */
    method Begin() returns (ok: bool)
      requires Valid()
      modifies this`id, this`written, this`ended, this`taken, this`over, this`failed, this`head, this`held, this`marks,
               this`read, this`frames, this`given, this`waking, this`broke
      ensures Valid() && ok == !closed
      ensures Signals() == if ok then W.After(old(Signals()), W.Begins) else old(Signals())
      ensures ok ==> frames == [] && given == [] && read == held == 0 && marks == [] && written == []
      ensures ok ==> !ended && !over && taken == 0
      ensures !ok ==> frames == old(frames) && given == old(given) && written == old(written) && marks == old(marks)
    {
      if closed {
        return false;
      }
      Restart();
      return true;
    }

    method Restart()
      requires Valid()
      modifies this`id, this`written, this`ended, this`taken, this`over, this`failed, this`head, this`held, this`marks,
               this`read, this`frames, this`given, this`waking, this`broke
      ensures Valid() && Signals() == W.After(old(Signals()), W.Begins)
      ensures frames == [] && given == [] && read == held == 0 && marks == [] && written == []
      ensures !ended && !over && taken == 0
    {
      Current();
      hide R.Queue, Flat, Framed, Ascending, AtMost, VoicedAt, Store, Marked, Texted, Ended;
      Forget();
      Silence();
      IsNew();
    }

    method Forget()
      modifies this`id, this`waking, this`written, this`ended, this`taken, this`over, this`failed, this`broke
      ensures Signals() == W.After(old(Signals()), W.Begins)
      ensures written == [] && taken == 0 && !ended && !over && !failed && !broke
    {
      id, waking := id + 1, waking + 1;
      written, ended, taken, over, failed, broke := [], false, 0, false, false, false;
    }

    method Silence()
      modifies this`head, this`held, this`marks, this`read, this`frames, this`given
      ensures head == held == read == 0 && marks == [] && frames == [] && given == []
    {
      head, held, marks, read := 0, 0, [], 0;
      frames, given := [], [];
    }

    lemma Current()
      requires Valid()
      ensures cur <= id && audio.Length > 0 && (inFlight ==> worker == W.Speaking)
    {
    }

    lemma IsNew()
      requires cur < id && audio.Length > 0 && (inFlight ==> worker == W.Speaking)
      requires marks == [] && written == [] && taken == head == held == read == 0 && frames == [] && given == []
      requires !over && !failed && !broke
      ensures Valid()
    {
      NothingHeld(audio[..]);
      hide R.Queue, Flat, Framed, Ascending, AtMost, VoicedAt;
    }

    /** Begin, out of the mutex again: the channel holds one wake-up at most. */
    method Wake()
      requires Valid() && waking > 0
      modifies this`begun, this`waking
      ensures Valid() && Signals() == W.After(old(Signals()), W.Wakes)
    {
      begun, waking := true, waking - 1;
    }

    lemma NothingHeld(ring: seq<Sample>)
      requires ring != []
      ensures R.Queue(ring, 0, 0) == [] && [] + R.Queue(ring, 0, 0) == Flat([]) && Framed([])
      ensures Ascending([]) && forall n :: AtMost([], n)
    {
    }

    /** The first of the reasons to refuse text, in the order they are checked. */
    function Writable(cancelled: bool): (r: Option<Error>)
      reads this
      ensures r == Some(Closed) <==> closed
      ensures r == Some(Idle) <==> !closed && (id == 0 || ended)
      ensures r == Some(Failed) <==> !closed && id > 0 && !ended && over && failed
      ensures r == Some(Cancelled) <==> !closed && id > 0 && !ended && !(over && failed) && cancelled
    {
      if closed then Some(Closed)
      else if id == 0 || ended then Some(Idle)
      else if over && failed then Some(Failed)
      else if cancelled then Some(Cancelled)
      else None
    }

    method Write(text: Text, cancelled: bool) returns (error: Option<Error>)
      requires Valid()
      modifies this`written
      ensures Valid() && error == Writable(cancelled)
      ensures written == if error.None? then old(written) + text else old(written)
    {
      error := Writable(cancelled);
      if error.None? {
        written := written + text;
      }
    }

    method End(cancelled: bool) returns (error: Option<Error>)
      requires Valid()
      modifies this`ended
      ensures Valid() && ended && error == old(Writable(cancelled))
    {
      error := Writable(cancelled);
      ended := true;
    }

    /** Samples for the reader: the next of the frames queued, in order; at the end of the speech,
        its end or its failure. */
    method Read(pcm: array<Sample>, cancelled: bool) returns (r: Reading)
      requires Valid() && pcm != audio
      modifies this`head, this`held, this`read, this`given, pcm
      ensures Valid() && given <= Flat(frames)
      ensures r.Refused? <==> closed || id == 0 || cancelled || (pcm.Length > 0 && old(held) == 0 && over && failed)
      ensures r == EndOfSpeech <==> !r.Refused? && pcm.Length > 0 && old(held) == 0 && over && !failed
      ensures r == EndOfSpeech && broke ==> id == cur && again
      ensures r == Wait <==> !r.Refused? && pcm.Length > 0 && old(held) == 0 && !over
      ensures r.Samples? ==> r.n == if pcm.Length < old(held) then pcm.Length else old(held)
      ensures r.Samples? ==> given == old(given) + pcm[..r.n] && held == old(held) - r.n
      ensures r.Samples? ==> pcm[r.n..] == old(pcm[r.n..])
      ensures !r.Samples? ==> given == old(given) && held == old(held) && pcm[..] == old(pcm[..])
    {
      hide Flat, Framed, Ascending, AtMost, VoicedAt;
      Given(given, R.Queue(audio[..], head, held));
      if closed {
        return Refused(Closed);
      }
      if id == 0 {
        return Refused(Idle);
      }
      if cancelled {
        return Refused(Cancelled);
      }
      if pcm.Length == 0 {
        assert pcm[..0] == [] && given + [] == given;
        return Samples(0);
      }
      if held > 0 {
        var n := ReadHeld(pcm);
        return Samples(n);
      }
      if over {
        return if failed then Refused(Failed) else EndOfSpeech;
      }
      return Wait;
    }

    method ReadHeld(pcm: array<Sample>) returns (n: nat)
      requires Valid() && pcm != audio
      modifies this`head, this`held, this`read, this`given, pcm
      ensures Valid() && given <= Flat(frames)
      ensures n == if pcm.Length < old(held) then pcm.Length else old(held)
      ensures given == old(given) + pcm[..n] && held == old(held) - n && pcm[n..] == old(pcm[n..])
    {
      hide R.Queue, Flat, Framed, Marked, Texted, Ended;
      n := if pcm.Length < held then pcm.Length else held;
      CopyFront(pcm, n);
      Advance(n, pcm[..n]);
      TextStays();
    }

    method Advance(n: nat, front: seq<Sample>)
      requires Store() && n <= held && front == R.Queue(audio[..], head, held)[..n]
      modifies this`head, this`held, this`read, this`given
      ensures Store() && given <= Flat(frames) && given == old(given) + front && held == old(held) - n
    {
      hide R.Queue, Flat, Framed;
      ghost var q := R.Queue(audio[..], head, held);
      R.QueueDrops(audio[..], head, held, n);
      assert (head + n) % audio.Length == R.Slot(head, n, audio.Length);
      hide R.Slot;
      head, held, read := (head + n) % audio.Length, held - n, read + n;
      given := given + front;
      assert q == q[..n] + q[n..];
      Regroup(old(given), q[..n], q[n..]);
      assert R.Queue(audio[..], head, held) == q[n..];
      Given(given, q[n..]);
    }

    twostate lemma TextStays()
      requires old(Marked() && Texted() && Ended())
      requires id == old(id) && cur == old(cur) && marks == old(marks) && written == old(written) && taken == old(taken)
      requires over == old(over) && failed == old(failed) && broke == old(broke) && worker == old(worker)
      requires pending == old(pending) && tokenized == old(tokenized) && textEnd == old(textEnd) && at == old(at)
      requires inFlight == old(inFlight) && flight == old(flight)
      requires again == old(again) && kept == old(kept) && base == old(base)
      ensures Marked() && Texted() && Ended()
    {
    }

    lemma Regroup(a: seq<Sample>, b: seq<Sample>, c: seq<Sample>)
      ensures a + (b + c) == (a + b) + c
    {
    }

    lemma Given(a: seq<Sample>, b: seq<Sample>)
      ensures a <= a + b
    {
    }

    /** The first n samples held, in at most two pieces. */
    method CopyFront(pcm: array<Sample>, n: nat)
      requires head < audio.Length && n <= held <= audio.Length && n <= pcm.Length && pcm != audio
      modifies pcm
      ensures pcm[..n] == R.Queue(audio[..], head, held)[..n] && pcm[n..] == old(pcm[n..])
    {
      hide R.Queue, R.Slot;
      ghost var q, was, ring := R.Queue(audio[..], head, held), pcm[..], audio[..];
      var k := if n < audio.Length - head then n else audio.Length - head;
      R.FrontOf(ring, head, held, k);
      R.CopyTo(pcm, 0, audio[head..head + k]);
      assert audio[..] == ring && ring[head..head + k] == audio[head..head + k];
      assert pcm[..k] == q[..k];
      R.CopyTo(pcm, k, audio[..n - k]);
      assert audio[..] == ring && ring[..n - k] == audio[..n - k];
      Wrapped(ring, head, held, k, n);
      assert q[..n] == q[..k] + q[k..n];
      assert was[k..][n - k..] == was[n..];
    }

    /** The second piece comes from the array's start. */
    lemma Wrapped(ring: seq<Sample>, head: nat, n: nat, k: nat, m: nat)
      requires head < |ring| && k <= m <= n <= |ring|
      requires k == if m < |ring| - head then m else |ring| - head
      ensures ring[..m - k] == R.Queue(ring, head, n)[k..m]
    {
      forall i | 0 <= i < m - k ensures ring[..m - k][i] == R.Queue(ring, head, n)[k..m][i] {
        assert R.Slot(head, k + i, |ring|) == i;
      }
    }

    /** The bytes of text that the first samples speak. */
    function Voiced(samples: int): (v: nat)
      requires Valid()
      reads this, audio
      ensures v <= |written|
    {
      if samples <= 0 then 0
      else if over && !failed && samples >= read + held then |written|
      else if marks == [] then 0
      else
        InRange(samples);
        marks[((if samples < read + held then samples else read + held) - 1) / FRAME_SAMPLES]
    }

    /** What is read and held is whole frames; so the mark of every sample is there. */
    lemma InRange(samples: int)
      requires Valid()
      ensures read + held == FRAME_SAMPLES * |frames|
      ensures samples > 0 && marks != [] ==>
        0 <= ((if samples < read + held then samples else read + held) - 1) / FRAME_SAMPLES < |marks|
    {
      hide R.Queue;
      FlatLength(frames);
      assert |given + R.Queue(audio[..], head, held)| == read + held;
    }

    /** What the mark of a frame says for the samples counted in it; the whole text when the speech
        is over and no sample of it is left out. */
    lemma VoicedTells(samples: int, i: nat)
      requires Valid()
      ensures samples <= 0 || (marks == [] && !(over && !failed && samples >= read + held)) ==> Voiced(samples) == 0
      ensures samples > 0 && over && !failed && samples >= read + held ==> Voiced(samples) == |written|
      ensures !(over && !failed && samples >= read + held) ==>
        (i < |marks| && i * FRAME_SAMPLES < samples <= (i + 1) * FRAME_SAMPLES ==> Voiced(samples) == marks[i])
      ensures marks != [] && samples > read + held && !(over && !failed) ==> Voiced(samples) == marks[|marks| - 1]
    {
      InRange(samples);
    }

    /** Where a pass begins behind another's marks, they can go back; nowhere else. */
    lemma AscendingIff()
      requires Valid() && id == cur
      ensures Ascending(marks) <==>
        Ascending(marks[..kept]) && (0 < kept < |marks| ==> marks[kept - 1] <= marks[kept])
    {
      assert marks == marks[..kept] + marks[kept..];
      if 0 < kept < |marks| {
        JoinedAscendsIff(marks[..kept], marks[kept..]);
      }
    }

    /** More samples never speak less, exactly when the marks ascend. */
    lemma VoicedGrowsIff()
      requires Valid()
      ensures (forall a, b :: a <= b ==> Voiced(a) <= Voiced(b)) <==> Ascending(marks)
    {
      if Ascending(marks) {
        forall a, b | a <= b ensures Voiced(a) <= Voiced(b) {
          InRange(a);
          InRange(b);
        }
      } else {
        var i, j :| 0 <= i <= j < |marks| && marks[i] > marks[j];
        InRange(0);
        assert Voiced(i * FRAME_SAMPLES + 1) == marks[i] && Voiced(j * FRAME_SAMPLES + 1) == marks[j];
      }
    }

    lemma SecondMark()
      requires Valid() && |marks| == 2 && !(over && !failed && read + held <= FRAME_SAMPLES + 1)
      ensures Voiced(1) == marks[0] && Voiced(FRAME_SAMPLES + 1) == marks[1]
    {
      InRange(1);
    }

    /** So in an utterance's first pass they never do. */
    lemma VoicedGrows(a: int, b: int)
      requires Valid() && (id == cur ==> !again) && a <= b
      ensures Voiced(a) <= Voiced(b)
    {
      assert marks[0..] == marks;
      VoicedGrowsIff();
    }

    // The worker.

    method Receive()
      requires Valid() && W.Can(Signals(), W.Receives)
      modifies this`begun, this`worker
      ensures Valid() && Signals() == W.After(old(Signals()), W.Receives)
    {
      begun, worker := false, W.Woken;
    }

    /** A pass over the utterance that is current by now. */
    method StartPass()
      requires Valid() && W.Can(Signals(), W.Starts)
      modifies this`cur, this`pending, this`tokenized, this`textEnd, this`at, this`worker, this`again, this`kept,
               this`base
      ensures Valid() && Signals() == W.After(old(Signals()), W.Starts)
      ensures again == (old(cur) == id) && kept == |marks| && base == taken
      ensures pending == [] && tokenized == 0 && textEnd == [] && at == 0
    {
      hide R.Queue, Flat, Framed, Ascending, AtMost, VoicedAt;
      TakenSoFar();
      Reset();
      Claim();
      NoneYet();
    }

    method Reset()
      modifies this`pending, this`tokenized, this`textEnd, this`at
      ensures pending == [] && tokenized == 0 && textEnd == [] && at == 0
    {
      pending, tokenized, textEnd, at := [], 0, [], 0;
    }

    method Claim()
      requires W.Can(Signals(), W.Starts)
      modifies this`cur, this`worker, this`again, this`kept, this`base
      ensures Signals() == W.After(old(Signals()), W.Starts)
      ensures again == (old(cur) == id) && kept == |marks| && base == taken
    {
      again, kept, base := cur == id, |marks|, taken;
      cur, worker := id, W.Speaking;
    }

    lemma TakenSoFar()
      requires Valid()
      ensures taken <= |written| && (id != cur ==> taken == 0 && marks == [] && !over)
      ensures AtMost(marks, |written|)
    {
    }

    lemma NoneYet()
      requires Store() && AtMost(marks, |written|) && taken <= |written| && !inFlight && id == cur
      requires kept == |marks| && base == taken && pending == [] && tokenized == 0 && textEnd == []
      requires !again ==> base == kept == 0 && !over
      requires worker == W.Speaking && (failed ==> broke) && (broke ==> over)
      ensures Valid()
    {
      assert marks[|marks|..] == [];
    }

    /** Text written since is pending, if the utterance is still the current one. */
    method Take() returns (r: Taking)
      requires Valid()
      modifies this`pending, this`taken
      ensures Valid()
      ensures r == TakingDropped <==> id != cur
      ensures r == TakingClosed <==> id == cur && closed
      ensures r == Taken <==> id == cur && !closed && old(taken) < |written|
      ensures r == TextEnded <==> id == cur && !closed && old(taken) == |written| && ended
      ensures r == Taken ==> pending == old(pending) + written[old(taken)..] && taken == |written|
      ensures r != Taken ==> pending == old(pending) && taken == old(taken)
    {
      if id != cur {
        return TakingDropped;
      }
      if closed {
        return TakingClosed;
      }
      if taken < |written| {
        pending := pending + written[taken..];
        taken := |written|;
        return Taken;
      }
      return if ended then TextEnded else MoreToCome;
    }

    /** The first n bytes of the pending text become tokens, with the byte each ends at. */
    method Tokenize(n: nat, pieces: seq<nat>)
      requires Valid() && n <= |pending|
      modifies this`textEnd, this`tokenized, this`pending
      ensures Valid() && tokenized == old(tokenized) + n && pending == old(pending[n..])
      ensures textEnd == old(textEnd) + TokenEnds(pieces, old(tokenized), old(tokenized) + n)
    {
      hide R.Queue, Flat, Framed, VoicedAt, TokenEnds;
      var ends := FindEnds(pieces, tokenized, tokenized + n);
      EndsAscend(pieces, tokenized, tokenized + n);
      if id == cur {
        AscendingJoins(textEnd, ends, tokenized);
        VoicedAtGrows(aligned, textEnd, ends, at, 0);
      }
      textEnd := textEnd + ends;
      tokenized := tokenized + n;
      pending := pending[n..];
    }

    method FindEnds(pieces: seq<nat>, had: nat, last: nat) returns (ends: seq<nat>)
      ensures ends == TokenEnds(pieces, had, last)
    {
      var end: nat := had;
      ends := [];
      for i := 0 to |pieces|
        invariant |ends| == i && end == had + Total(pieces[..i])
        invariant forall j :: 0 <= j < i ==> ends[j] == Cut(had + Total(pieces[..j + 1]), last)
      {
        assert pieces[..i + 1][..i] == pieces[..i];
        end := end + pieces[i];
        ends := ends + [Cut(end, last)];
      }
      if pieces != [] {
        ends := ends[|ends| - 1 := last];
      }
    }

    /** The talker attends to a later token. */
    method Attend(best: nat)
      requires Valid()
      modifies this`at
      ensures Valid() && at == old(at) + best
    {
      assert textEnd + [] == textEnd;
      if id == cur {
        VoicedAtGrows(aligned, textEnd, [], at, best);
      }
      at := at + best;
    }

    /** A frame goes to the decoder, with the text voiced by now. */
    method Send()
      requires Valid() && worker == W.Speaking && !inFlight
      modifies this`inFlight, this`flight
      ensures Valid() && inFlight && flight == VoicedAt(aligned, textEnd, at)
    {
      inFlight, flight := true, VoicedAt(aligned, textEnd, at);
    }

    /** The decoded frame is queued with its mark, once there is room, unless a new utterance
        began. */
    method Queue(pcm: seq<Sample>, cancelled: bool) returns (r: Status)
      requires Valid() && inFlight && |pcm| == FRAME_SAMPLES
      modifies this`inFlight, this`held, this`marks, this`frames, audio
      ensures Valid()
      ensures r == if id != cur then Dropped else if closed then QueueRefused(Closed)
        else if cancelled then QueueRefused(Cancelled)
                   else if audio.Length - old(held) < |pcm| then NoRoom else Queued
      ensures frames == if r == Queued then old(frames) + [pcm] else old(frames)
      ensures marks == if r == Queued then old(marks) + [flight] else old(marks)
      ensures held == if r == Queued then old(held) + |pcm| else old(held)
      ensures inFlight <==> r == NoRoom
    {
      hide R.Queue, Flat, Framed, VoicedAt, Ascending, AtMost;
      if id != cur {
        inFlight := false;
        return Dropped;
      }
      if closed || cancelled {
        inFlight := false;
        return QueueRefused(if closed then Closed else Cancelled);
      }
      if audio.Length - held < |pcm| {
        return NoRoom;
      }
      Accept(pcm);
      return Queued;
    }

    method Accept(pcm: seq<Sample>)
      requires Valid() && inFlight && |pcm| == FRAME_SAMPLES && id == cur && audio.Length - held >= |pcm|
      modifies this`inFlight, this`held, this`marks, this`frames, audio
      ensures Valid() && !inFlight && frames == old(frames) + [pcm] && marks == old(marks) + [flight]
      ensures held == old(held) + |pcm|
    {
      hide R.Queue, Flat, Framed, VoicedAt, Ascending, AtMost;
      MarkAdded(marks, kept, flight, VoicedAt(aligned, textEnd, at), |written|);
      VoicedInText();
      Put(pcm);
      FrameAdded(frames, pcm);
      Regroup(given, old(R.Queue(audio[..], head, held)), pcm);
      Record(pcm);
    }

    method Record(pcm: seq<Sample>)
      modifies this`inFlight, this`marks, this`frames
      ensures !inFlight && marks == old(marks) + [flight] && frames == old(frames) + [pcm]
    {
      inFlight := false;
      marks := marks + [flight];
      frames := frames + [pcm];
    }

    lemma MarkAdded(marks: seq<nat>, kept: nat, m: nat, voiced: nat, text: nat)
      requires kept <= |marks| && Ascending(marks[kept..]) && AtMost(marks[kept..], m) && m <= voiced
      ensures Ascending((marks + [m])[kept..]) && AtMost((marks + [m])[kept..], voiced)
      ensures voiced <= text && AtMost(marks, text) ==> AtMost(marks + [m], text)
    {
      assert (marks + [m])[kept..] == marks[kept..] + [m];
    }

    lemma VoicedInText()
      requires Texted() && id == cur
      ensures VoicedAt(aligned, textEnd, at) <= tokenized <= |written|
    {
    }

    lemma FrameAdded(frames: seq<seq<Sample>>, pcm: seq<Sample>)
      requires Framed(frames) && |pcm| == FRAME_SAMPLES
      ensures Framed(frames + [pcm]) && Flat(frames + [pcm]) == Flat(frames) + pcm
    {
      assert (frames + [pcm])[..|frames|] == frames;
    }

    method Put(pcm: seq<Sample>)
      requires head < audio.Length && held + |pcm| <= audio.Length && pcm != []
      modifies this`held, audio
      ensures held == old(held) + |pcm|
      ensures R.Queue(audio[..], head, held) == old(R.Queue(audio[..], head, held)) + pcm
    {
      hide R.Queue, R.Slot, Round;
      FrameQueued(audio[..], head, held, pcm);
      var start := (head + held) % audio.Length;
      assert start == R.Slot(head, held, audio.Length);
      CopyRound(audio, start, pcm);
      held := held + |pcm|;
    }

    method Close()
      requires Valid()
      modifies this`closed
      ensures Valid() && closed
    {
      closed := true;
    }

    /** The pass is over, for its own utterance only; a frame still in flight is dropped. The
        utterance's failure is that of its last pass. */
    method Finish(err: bool)
      requires Valid() && W.Can(Signals(), W.Ends)
      modifies this`over, this`failed, this`inFlight, this`worker, this`broke
      ensures Valid() && Signals() == W.After(old(Signals()), W.Ends) && !inFlight
      ensures if id == cur then over && failed == err && broke == (old(broke) || err)
              else over == old(over) && failed == old(failed) && broke == old(broke)
      ensures id == cur && !again ==> failed == broke
    {
      hide R.Queue, Flat, Framed, Ascending, AtMost, VoicedAt;
      Conclude(err);
    }

    method Conclude(err: bool)
      requires W.Can(Signals(), W.Ends)
      modifies this`over, this`failed, this`inFlight, this`worker, this`broke
      ensures Signals() == W.After(old(Signals()), W.Ends) && !inFlight
      ensures if id == cur then over && failed == err && broke == (old(broke) || err)
              else over == old(over) && failed == old(failed) && broke == old(broke)
    {
      inFlight, worker := false, W.Waiting;
      if id == cur {
        over, failed, broke := true, err, broke || err;
      }
    }
  }

  // What a second pass over an utterance does.

  method BeginWhole(lane: Lane)
    requires lane.Valid() && !lane.closed && lane.waking == 0 && !lane.inFlight
    modifies lane
    ensures lane.Valid() && !lane.closed && !lane.inFlight && !lane.ended && lane.written == [] && lane.taken == 0
    ensures lane.Signals() == W.State(old(lane.id) + 1, old(lane.cur), true, 0, old(lane.worker))
    ensures lane.held == 0 && lane.marks == [] && !lane.over
  {
    hide Lane.Valid, Lane.Store, Lane.Marked, Lane.Texted, Lane.Ended, R.Queue, Flat, Framed, Ascending, AtMost;
    var ok := lane.Begin();
    lane.Wake();
  }

  /** A lane whose worker speaks an utterance while a wake-up is still on its way to it. */
  method StartTwice() returns (lane: Lane)
    ensures fresh(lane) && fresh(lane.audio) && lane.Valid() && lane.aligned && lane.audio.Length == 2 * FRAME_SAMPLES
    ensures lane.Signals() == W.State(2, 2, true, 0, W.Speaking) && !lane.closed && !lane.inFlight && !lane.ended
    ensures lane.held == 0 && lane.marks == [] && lane.written == [] && lane.taken == 0 && lane.textEnd == [] &&
      lane.pending == []
    ensures lane.at == lane.tokenized == 0 && !lane.over
  {
    hide Lane.Valid, Lane.Store, Lane.Marked, Lane.Texted, Lane.Ended, R.Queue, Flat, Framed, Ascending, AtMost;
    lane := new Lane(2, true);
    BeginWhole(lane);
    lane.Receive();
    BeginWhole(lane);
    lane.StartPass();
  }

  /** The worker takes a text of one token. */
  method TakeWord(lane: Lane, text: Text)
    requires lane.Valid() && lane.id == lane.cur > 0 && lane.taken == |lane.written| && text != []
    requires !lane.closed && !lane.ended && !(lane.over && lane.failed)
    requires lane.pending == [] && lane.textEnd == [] && lane.tokenized == 0
    modifies lane`written, lane`pending, lane`taken, lane`textEnd, lane`tokenized
    ensures lane.Valid() && lane.written == old(lane.written) + text && lane.taken == |lane.written|
    ensures lane.textEnd == [|text|]
  {
    hide Lane.Valid, Lane.Store, Lane.Marked, Lane.Texted, Lane.Ended, R.Queue, Flat, Framed, Ascending, AtMost;
    var e := lane.Write(text, false);
    var t := lane.Take();
    assert lane.pending == text;
    lane.Tokenize(|text|, [|text|]);
  }

  /** It is spoken in a frame, whose mark counts the text of the pass. */
  method SpeakWord(lane: Lane, text: Text)
    requires lane.Valid() && lane.id == lane.cur > 0 && lane.taken == |lane.written| && text != []
    requires !lane.closed && !lane.ended && !(lane.over && lane.failed)
    requires lane.pending == [] && lane.textEnd == [] && lane.tokenized == lane.at == 0
    requires lane.aligned && lane.worker == W.Speaking && !lane.inFlight &&
      lane.audio.Length - lane.held >= FRAME_SAMPLES
    modifies lane`written, lane`pending, lane`taken, lane`textEnd, lane`tokenized, lane`inFlight, lane`flight,
             lane`held, lane`marks, lane`frames, lane.audio
    ensures lane.Valid() && lane.marks == old(lane.marks) + [|text|] && lane.held == old(lane.held) + FRAME_SAMPLES
    ensures lane.written == old(lane.written) + text && lane.taken == |lane.written| && !lane.inFlight
  {
    hide Lane.Valid, Lane.Store, Lane.Marked, Lane.Texted, Lane.Ended, R.Queue, Flat, Framed, Ascending, AtMost;
    TakeWord(lane, text);
    lane.Send();
    var r := lane.Queue(seq(FRAME_SAMPLES, _ => 0.0), false);
  }

  /** The pass ends, and another over the same utterance begins. */
  method PassAgain(lane: Lane, err: bool)
    requires lane.Valid() && lane.id == lane.cur && lane.begun && lane.worker == W.Speaking
    modifies lane`over, lane`failed, lane`inFlight, lane`worker, lane`broke, lane`begun, lane`cur, lane`pending,
             lane`tokenized, lane`textEnd, lane`at, lane`again, lane`kept, lane`base
    ensures lane.Valid() && lane.Signals() == old(lane.Signals()).(begun := false) && lane.again && !lane.inFlight
    ensures lane.over && lane.failed == err && lane.broke == (old(lane.broke) || err)
    ensures lane.pending == [] && lane.textEnd == [] && lane.tokenized == lane.at == 0
  {
    hide Lane.Valid, Lane.Store, Lane.Marked, Lane.Texted, Lane.Ended, R.Queue, Flat, Framed, Ascending, AtMost;
    lane.Finish(err);
    lane.Receive();
    lane.StartPass();
  }

  /** The worker spoke a word, and begins another pass over the same utterance. */
  method SpeakOnce() returns (lane: Lane)
    ensures fresh(lane) && fresh(lane.audio) && lane.Valid() && lane.again && lane.aligned &&
      lane.audio.Length == 2 * FRAME_SAMPLES
    ensures lane.Signals() == W.State(2, 2, false, 0, W.Speaking) && !lane.closed && !lane.ended && !lane.failed &&
      !lane.inFlight
    ensures lane.marks == [2] && lane.taken == |lane.written| && lane.held == FRAME_SAMPLES
    ensures lane.pending == [] && lane.textEnd == [] && lane.tokenized == lane.at == 0
  {
    hide Lane.Valid, Lane.Store, Lane.Marked, Lane.Texted, Lane.Ended, R.Queue, Flat, Framed, Ascending, AtMost;
    lane := StartTwice();
    SpeakWord(lane, "ab");
    PassAgain(lane, false);
  }

  /** Marks begin again: the first sample speaks more of the text than the first two frames. */
  method VoicedGoesBack() returns (lane: Lane)
    ensures lane.Valid() && lane.again && lane.Voiced(1) == 2 && lane.Voiced(FRAME_SAMPLES + 1) == 1
  {
    hide Lane.Valid, Lane.Store, Lane.Marked, Lane.Texted, Lane.Ended, R.Queue, Flat, Framed, Ascending, AtMost;
    lane := SpeakOnce();
    SpeakWord(lane, "c");
    lane.SecondMark();
  }

  /** The pass failed, and the worker begins another over the same utterance. */
  method FailOnce() returns (lane: Lane)
    ensures fresh(lane) && fresh(lane.audio) && lane.Valid() && lane.again && lane.broke && lane.ended && !lane.closed
    ensures lane.Signals() == W.State(2, 2, false, 0, W.Speaking) && lane.written == [] && lane.taken == lane.held == 0
  {
    hide Lane.Valid, Lane.Store, Lane.Marked, Lane.Texted, Lane.Ended, R.Queue, Flat, Framed, Ascending, AtMost;
    lane := StartTwice();
    var e := lane.End(false);
    PassAgain(lane, true);
  }

  /** A failure is overwritten: the reader sees the end of the speech. */
  method FailureLost() returns (lane: Lane, r: Reading)
    ensures lane.Valid() && lane.again && lane.broke && r == EndOfSpeech
  {
    hide Lane.Valid, Lane.Store, Lane.Marked, Lane.Texted, Lane.Ended, R.Queue, Flat, Framed, Ascending, AtMost;
    lane := FailOnce();
    var t := lane.Take();
    assert t == TextEnded;
    lane.Finish(false);
    var pcm := new Sample[1](_ => 0.0);
    r := lane.Read(pcm, false);
  }

  function Total(s: seq<nat>): nat {
    if s == [] then 0 else Total(s[..|s| - 1]) + s[|s| - 1]
  }

  function Cut(n: nat, last: nat): nat {
    if n < last then n else last
  }

  /** The ends of a text's tokens: the pieces add up to it, but no end passes the text's, and the
      last is the text's. */
  function TokenEnds(pieces: seq<nat>, had: nat, last: nat): (r: seq<nat>)
    ensures |r| == |pieces|
  {
    seq<nat>(|pieces|, i requires 0 <= i < |pieces| =>
      if i == |pieces| - 1 then last else Cut(had + Total(pieces[..i + 1]), last))
  }

  /** Token i ends where the first i + 1 pieces do, but not past the text; the last one with it. */
  lemma TokenEndsTell(pieces: seq<nat>, had: nat, last: nat, i: nat)
    requires i < |pieces|
    ensures Total(pieces[..i + 1]) == Total(pieces[..i]) + pieces[i] && Total([]) == 0
    ensures var (r, bytes) := (TokenEnds(pieces, had, last), Total(pieces[..i + 1]));
      r[i] == if i == |pieces| - 1 || had + bytes > last then last else had + bytes
  {
    assert pieces[..i + 1][..i] == pieces[..i];
  }

  lemma EndsAscend(pieces: seq<nat>, had: nat, last: nat)
    requires had <= last
    ensures Ascending(TokenEnds(pieces, had, last)) && AtMost(TokenEnds(pieces, had, last), last)
    ensures forall i :: 0 <= i < |pieces| ==> had <= TokenEnds(pieces, had, last)[i]
  {
    TotalGrows(pieces);
    var r := TokenEnds(pieces, had, last);
    forall i, j | 0 <= i <= j < |r| ensures r[i] <= r[j] {
      assert Total(pieces[..i + 1]) <= Total(pieces[..j + 1]);
    }
  }

  lemma {:induction false} TotalGrows(s: seq<nat>)
    ensures forall i, j :: 0 <= i <= j <= |s| ==> Total(s[..i]) <= Total(s[..j])
  {
    if s != [] {
      var init := s[..|s| - 1];
      TotalGrows(init);
      forall i, j | 0 <= i <= j <= |s| ensures Total(s[..i]) <= Total(s[..j]) {
        if j < |s| {
          assert s[..i] == init[..i] && s[..j] == init[..j];
        } else if i < |s| {
          assert s[..j] == s && s[..i] == init[..i] && init[..|init|] == init;
        }
      }
    }
  }
}
