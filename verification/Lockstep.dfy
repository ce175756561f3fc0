// The codec transformer of qwen3tts/decoder.go: participants that share one frame's layers,
// meeting at a spin barrier, and the window of keys and values they attend to.

/** The spin barrier: one shared counter of arrivals. */
module Barrier {

  /** A participant has made arrived[i] arrivals and left left[i] phases. */
  datatype State = State(arrived: seq<nat>, left: seq<nat>, count: nat) {
    function Parts(): nat {
      |arrived|
    }

    /** Between barriers: what the participant reads and writes now belongs to phase left[i]. */
    predicate Working(i: nat)
      requires i < |arrived| == |left|
    {
      arrived[i] == left[i]
    }
  }

  datatype Step = Arrive(i: nat) | Leave(i: nat)

  function Total(a: seq<nat>): nat {
    if a == [] then 0 else Total(a[..|a| - 1]) + a[|a| - 1]
  }

  function Start(parts: nat): State {
    State(seq(parts, _ => 0), seq(parts, _ => 0), 0)
  }

  /** Arriving adds to the counter; leaving phase p waits until it reaches p times the participants. */
  predicate Enabled(s: State, e: Step) {
    && e.i < |s.arrived| == |s.left|
    && match e
       case Arrive(i) => s.arrived[i] == s.left[i]
       case Leave(i) => s.arrived[i] == s.left[i] + 1 && s.count >= s.arrived[i] * s.Parts()
  }

  function Do(s: State, e: Step): State
    requires Enabled(s, e)
  {
    match e
    case Arrive(i) => s.(arrived := s.arrived[i := s.arrived[i] + 1], count := s.count + 1)
    case Leave(i) => s.(left := s.left[i := s.arrived[i]])
  }

  ghost predicate Inv(s: State) {
    && |s.left| == |s.arrived|
    && s.count == Total(s.arrived)
    && (forall i :: 0 <= i < s.Parts() ==> s.left[i] <= s.arrived[i] <= s.left[i] + 1)
    && (forall i, j :: 0 <= i < s.Parts() && 0 <= j < s.Parts() ==> s.left[i] <= s.arrived[j])
  }

  lemma {:induction false} TotalOfZeros(n: nat)
    ensures Total(seq(n, _ => 0)) == 0
  {
    if n > 0 {
      assert seq(n, _ => 0)[..n - 1] == seq(n - 1, _ => 0);
      TotalOfZeros(n - 1);
    }
  }

  lemma {:induction false} TotalUpdated(a: seq<nat>, i: nat)
    requires i < |a|
    ensures Total(a[i := a[i] + 1]) == Total(a) + 1
    decreases |a|
  {
    var b := a[i := a[i] + 1];
    var m := |a| - 1;
    if i < m {
      assert b[..m] == a[..m][i := a[..m][i] + 1];
      TotalUpdated(a[..m], i);
    } else {
      assert b[..m] == a[..m];
    }
  }

  lemma {:induction false} TotalAtMost(a: seq<nat>, p: nat)
    requires forall j :: 0 <= j < |a| ==> a[j] <= p
    ensures Total(a) <= p * |a|
    ensures Total(a) == p * |a| ==> forall j :: 0 <= j < |a| ==> a[j] == p
  {
    if a != [] {
      TotalAtMost(a[..|a| - 1], p);
      assert p * |a| == p * (|a| - 1) + p;
    }
  }

  lemma {:induction false} TotalAtLeast(a: seq<nat>, p: nat)
    requires forall j :: 0 <= j < |a| ==> a[j] >= p
    ensures Total(a) >= p * |a|
  {
    if a != [] {
      TotalAtLeast(a[..|a| - 1], p);
      assert p * |a| == p * (|a| - 1) + p;
    }
  }

  /** A participant leaves phase p exactly when every participant has arrived at it. */
  lemma LeavesWhenAllArrived(s: State, i: nat)
    requires Inv(s) && i < s.Parts() && s.arrived[i] == s.left[i] + 1
    ensures Enabled(s, Leave(i)) <==> forall j :: 0 <= j < s.Parts() ==> s.arrived[j] >= s.arrived[i]
  {
    var p := s.arrived[i];
    if forall j :: 0 <= j < s.Parts() ==> s.arrived[j] >= p {
      TotalAtLeast(s.arrived, p);
    } else {
      forall m | 0 <= m < s.Parts() ensures s.arrived[m] <= p {
      }
      TotalAtMost(s.arrived, p);
    }
  }

  /** When all wait, the one that has left the fewest phases can leave: nobody spins for ever. */
  lemma SomeoneLeaves(s: State, least: nat)
    requires Inv(s) && least < s.Parts()
    requires forall j :: 0 <= j < s.Parts() ==> !s.Working(j) && s.left[least] <= s.left[j]
    ensures Enabled(s, Leave(least))
  {
    LeavesWhenAllArrived(s, least);
  }

  lemma StepKeeps(s: State, e: Step)
    requires Inv(s) && Enabled(s, e)
    ensures Inv(Do(s, e))
  {
    if e.Arrive? {
      TotalUpdated(s.arrived, e.i);
    } else {
      LeavesWhenAllArrived(s, e.i);
    }
  }

  ghost predicate IsRun(states: seq<State>, steps: seq<Step>, parts: nat) {
    && |states| == |steps| + 1
    && states[0] == Start(parts)
    && forall t :: 0 <= t < |steps| ==> Enabled(states[t], steps[t]) && states[t + 1] == Do(states[t], steps[t])
  }

  lemma {:induction false} RunKeeps(states: seq<State>, steps: seq<Step>, parts: nat, t: nat)
    requires IsRun(states, steps, parts) && t < |states|
    ensures Inv(states[t]) && states[t].Parts() == parts
  {
    if t == 0 {
      TotalOfZeros(parts);
    } else {
      RunKeeps(states, steps, parts, t - 1);
      StepKeeps(states[t - 1], steps[t - 1]);
    }
  }

  /** In every run, whoever leaves phase p finds that all have arrived at p. */
  lemma NoneLeavesEarly(states: seq<State>, steps: seq<Step>, parts: nat, t: nat, j: nat)
    requires IsRun(states, steps, parts) && t < |steps| && steps[t].Leave? && j < parts
    ensures |states[t].arrived| == parts && steps[t].i < parts && states[t].arrived[j] >= states[t].arrived[steps[t].i]
  {
    RunKeeps(states, steps, parts, t);
    LeavesWhenAllArrived(states[t], steps[t].i);
  }

  /** In every run, two participants at work are at work on the same phase. */
  lemma SamePhase(states: seq<State>, steps: seq<Step>, parts: nat, t: nat, i: nat, j: nat)
    requires IsRun(states, steps, parts) && t < |states| && i < parts && j < parts
    ensures |states[t].arrived| == |states[t].left| == parts
    ensures states[t].Working(i) && states[t].Working(j) ==> states[t].left[i] == states[t].left[j]
  {
    RunKeeps(states, steps, parts, t);
  }
}

/** What each participant touches between two barriers. */
module Layers {
  import B = Barrier

  const CHUNK := 512
  const QKV := 1024
  const HEAD := 64
  const HIDDEN := 512

  /** The shared vectors of one frame, element by element. */
  datatype Cell =
    | State(e: nat) | Query(e: nat) | Key(e: nat) | Value(e: nat) | Kept(slot: nat, e: nat)
    | Attended(e: nat) | Scratch(e: nat) | Gate(e: nat) | Up(e: nat) | Latent(e: nat)

  /** The stages of a layer, each ended by a barrier, and the projection after the last. */
  datatype Stage = Qkv | Attend | Project | Mlp | Down | Out

  function StageOf(layers: nat, phase: nat): Stage {
    if phase >= 5 * layers then Out else
    match phase % 5 {
      case 0 => Qkv case 1 => Attend case 2 => Project case 3 => Mlp case _ => Down
    }
  }

  /** Work item n belongs to participant me. */
  predicate Mine(parts: nat, me: nat, n: nat)
    requires parts > 0
  {
    n % parts == me
  }

  /** The outputs of stage for me, when gate and up have chunks chunks each. */
  predicate Writes(stage: Stage, parts: nat, chunks: nat, width: nat, me: nat, c: Cell)
    requires parts > 0 && width > 0
  {
    match (stage, c)
    case (Qkv, Query(e)) => Mine(parts, me, e / CHUNK)
    case (Qkv, Key(e)) => Mine(parts, me, QKV / CHUNK + e / CHUNK)
    case (Qkv, Value(e)) => Mine(parts, me, 2 * (QKV / CHUNK) + e / CHUNK)
    case (Attend, Query(e)) => Mine(parts, me, e / HEAD)
    case (Attend, Key(e)) => Mine(parts, me, e / HEAD)
    case (Attend, Kept(_, e)) => Mine(parts, me, e / HEAD)
    case (Attend, Attended(e)) => Mine(parts, me, e / HEAD)
    case (Project, Scratch(e)) => Mine(parts, me, e / (HIDDEN / 2))
    case (Project, State(e)) => Mine(parts, me, e / (HIDDEN / 2))
    case (Mlp, Gate(e)) => e / CHUNK < chunks && Mine(parts, me, e / CHUNK)
    case (Mlp, Up(e)) => e / CHUNK < chunks && Mine(parts, me, chunks + e / CHUNK)
    case (Down, Scratch(e)) => Mine(parts, me, e / (HIDDEN / 2))
    case (Down, State(e)) => Mine(parts, me, e / (HIDDEN / 2))
    case (Out, Latent(e)) => Mine(parts, me, e / width)
    case _ => false
  }

  /** The inputs of stage for me, and what it reads back of its own outputs. */
  predicate Reads(stage: Stage, parts: nat, chunks: nat, me: nat, c: Cell)
    requires parts > 0
  {
    match (stage, c)
    case (Qkv, State(_)) => true
    case (Attend, Query(e)) => Mine(parts, me, e / HEAD)
    case (Attend, Key(e)) => Mine(parts, me, e / HEAD)
    case (Attend, Value(e)) => Mine(parts, me, e / HEAD)
    case (Attend, Kept(_, e)) => Mine(parts, me, e / HEAD)
    case (Project, Attended(_)) => true
    case (Project, Scratch(e)) => Mine(parts, me, e / (HIDDEN / 2))
    case (Project, State(e)) => Mine(parts, me, e / (HIDDEN / 2))
    case (Mlp, State(_)) => true
    case (Mlp, Gate(e)) => e / CHUNK < chunks && Mine(parts, me, e / CHUNK)
    case (Mlp, Up(e)) => e / CHUNK < chunks && Mine(parts, me, e / CHUNK)
    case (Down, Gate(_)) => true
    case (Down, Scratch(e)) => Mine(parts, me, e / (HIDDEN / 2))
    case (Down, State(e)) => Mine(parts, me, e / (HIDDEN / 2))
    case (Out, State(_)) => true
    case _ => false
  }

  /** What a stage computes, with chunks chunks in the gate and in its factor. */
  predicate Computes(stage: Stage, chunks: nat, c: Cell) {
    match stage
    case Qkv => c.Query? || c.Key? || c.Value?
    case Attend => c.Query? || c.Key? || c.Kept? || c.Attended?
    case Project => c.Scratch? || c.State?
    case Mlp => (c.Gate? || c.Up?) && c.e / CHUNK < chunks
    case Down => c.Scratch? || c.State?
    case Out => c.Latent?
  }

  /** Every element that a stage computes is written by one participant, and by no other; and nothing
      else is written. */
  lemma WrittenByOne(stage: Stage, parts: nat, chunks: nat, width: nat, c: Cell) returns (me: nat)
    requires parts > 0 && width > 0
    ensures me < parts
    ensures forall other: nat | other < parts ::
      Writes(stage, parts, chunks, width, other, c) <==> Computes(stage, chunks, c) && other == me
  {
    var n := match (stage, c)
      case (Qkv, Query(e)) => e / CHUNK
      case (Qkv, Key(e)) => QKV / CHUNK + e / CHUNK
      case (Qkv, Value(e)) => 2 * (QKV / CHUNK) + e / CHUNK
      case (Attend, Query(e)) => e / HEAD
      case (Attend, Key(e)) => e / HEAD
      case (Attend, Kept(_, e)) => e / HEAD
      case (Attend, Attended(e)) => e / HEAD
      case (Project, Scratch(e)) => e / (HIDDEN / 2)
      case (Project, State(e)) => e / (HIDDEN / 2)
      case (Mlp, Gate(e)) => e / CHUNK
      case (Mlp, Up(e)) => chunks + e / CHUNK
      case (Down, Scratch(e)) => e / (HIDDEN / 2)
      case (Down, State(e)) => e / (HIDDEN / 2)
      case (Out, Latent(e)) => e / width
      case _ => 0;
    me := n % parts;
  }

  /** Someone else writes what me reads or writes. */
  predicate Race(stage: Stage, parts: nat, chunks: nat, width: nat, me: nat, other: nat, c: Cell)
    requires parts > 0 && width > 0
  {
    me != other && Writes(stage, parts, chunks, width, other, c) &&
    (Writes(stage, parts, chunks, width, me, c) || Reads(stage, parts, chunks, me, c))
  }

  lemma ModOfSum(a: nat, b: nat, m: nat)
    requires m > 0 && a % m == 0
    ensures (a + b) % m == b % m
  {
    var q, p := a / m, b / m;
    assert a + b == m * q + (m * p + b % m);
    assert a + b == m * (q + p) + b % m;
    ModIs(a + b, q + p, b % m, m);
  }

  lemma Multiple(m: int, d: int)
    requires m > 0
    ensures d >= 1 ==> m * d >= m
    ensures d <= -1 ==> m * d <= 0 - m
  {
    assert m * d == m + m * (d - 1) == m * (d + 1) - m;
  }

  lemma ModIs(a: nat, q: nat, r: nat, m: nat)
    requires m > 0 && r < m && a == m * q + r
    ensures a % m == r
  {
    Multiple(m, a / m - q);
    assert m * (a / m - q) == r - a % m;
  }

  /** No stage has a Race for any two participants exactly when chunks is a multiple of their
      number, so that chunk n of the gate and of its factor have one owner. */
  lemma RaceFreeIff(parts: nat, chunks: nat, width: nat)
    requires parts > 0 && width > 0 && chunks > 0
    ensures (forall stage, me: nat, other: nat, c ::
               me < parts && other < parts ==> !Race(stage, parts, chunks, width, me, other, c))
            <==> chunks % parts == 0
  {
    if chunks % parts == 0 {
      forall stage, me: nat, other: nat, c | me < parts && other < parts
        ensures !Race(stage, parts, chunks, width, me, other, c)
      {
        if c.Up? {
          ModOfSum(chunks, c.e / CHUNK, parts);
        }
      }
    } else {
      assert Mine(parts, 0, 0) by { assert 0 % parts == 0; }
      assert Race(Mlp, parts, chunks, width, 0, chunks % parts, Up(0));
    }
  }

  /** In every run of the layers, no participant at work reads or writes what another at work writes. */
  lemma NoRace(states: seq<B.State>, steps: seq<B.Step>, parts: nat, t: nat, me: nat, other: nat,
               layers: nat, chunks: nat, width: nat, c: Cell)
    requires B.IsRun(states, steps, parts) && t < |states| && me < parts && other < parts && me != other
    requires chunks > 0 && width > 0 && chunks % parts == 0
    requires |states[t].arrived| == |states[t].left| == parts
    requires states[t].Working(me) && states[t].Working(other)
    requires Writes(StageOf(layers, states[t].left[other]), parts, chunks, width, other, c)
    ensures !Writes(StageOf(layers, states[t].left[me]), parts, chunks, width, me, c)
    ensures !Reads(StageOf(layers, states[t].left[me]), parts, chunks, me, c)
  {
    hide Writes, Reads, StageOf;
    B.SamePhase(states, steps, parts, t, me, other);
    RaceFreeIff(parts, chunks, width);
    assert !Race(StageOf(layers, states[t].left[me]), parts, chunks, width, me, other, c);
  }
}

/** What the attention looks back on. */
module AttentionWindow {

  const WINDOW := 72

  /** Equal slots are a multiple of the window apart. */
  lemma SlotsDiffer(a: nat, b: nat)
    requires a < b < a + WINDOW
    ensures a % WINDOW != b % WINDOW
  {
  }

  class Window<T> {
    const slots: array<T>
    var pos: nat
    /** Every frame since the reset. */
    ghost var frames: seq<T>

    ghost predicate Valid()
      reads this, slots
    {
      && slots.Length == WINDOW && |frames| == pos
      && forall f :: 0 <= f < pos && pos - WINDOW <= f ==> slots[f % WINDOW] == frames[f]
    }

    constructor (none: T)
      ensures Valid() && fresh(slots) && frames == []
    {
      slots := new T[WINDOW](_ => none);
      pos, frames := 0, [];
    }

    /** Keep frame x, then read the attended span, newest first: slot (pos-j) mod window holds
        frame pos-j. */
    method Attend(x: T) returns (seen: seq<T>)
      requires Valid()
      modifies this, slots
      ensures Valid() && frames == old(frames) + [x]
      ensures |seen| == if |frames| < WINDOW then |frames| else WINDOW
      ensures forall j :: 0 <= j < |seen| ==> seen[j] == frames[|frames| - 1 - j]
    {
      var span := if pos + 1 < WINDOW then pos + 1 else WINDOW;
      slots[pos % WINDOW] := x;
      frames := frames + [x];
      assert forall f :: 0 <= f <= pos && pos + 1 - WINDOW <= f ==> slots[f % WINDOW] == frames[f] by {
        forall f: nat | f < pos && pos + 1 - WINDOW <= f ensures slots[f % WINDOW] == frames[f] {
          SlotsDiffer(f, pos);
        }
      }
      seen := [];
      for j := 0 to span
        invariant |seen| == j
        invariant forall i :: 0 <= i < j ==> seen[i] == frames[pos - i]
      {
        seen := seen + [slots[(pos - j) % WINDOW]];
      }
      pos := pos + 1;
    }
  }
}
