// The reply writer of duplex/cascade.go: a reply arrives in pieces and is spoken as it arrives,
// except for a beginning that may say the message again and for what may be a silence marker: the
// one is cut, the other ends the reply. Pieces are rune-aligned, so text is a sequence of runes here,
// each with its bytes.

module Reply {

  type Text = seq<Rune>

  datatype Rune = Rune(code: nat) {
    /** Its bytes in UTF-8. */
    function Width(): (w: nat)
      ensures 1 <= w <= 4
    {
      if code < 0x80 then 1 else if code < 0x800 then 2 else if code < 0x10000 then 3 else 4
    }
  }

  function Ascii(c: char): Rune {
    Rune(c as int)
  }

  const LT := Ascii('<')
  const GT := Ascii('>')
  const SILENT := [LT, Ascii('s'), Ascii('i'), Ascii('l'), Ascii('e'), Ascii('n'), Ascii('t')]

  function Bytes(s: Text): nat {
    if s == [] then 0 else s[0].Width() + Bytes(s[1..])
  }

  /** What a marker asks for: a time to wait, and what ends the silence. */
  datatype Silence = Silence(wait: nat, until: Text)

  /** speakable keeps what a voice can say; lead is what is trimmed after a cut repetition; means
      reads what is written inside a marker; word tells the runes of words, and lower writes them
      in lower case. */
  datatype Voice = Voice(speakable: Rune -> bool, lead: Rune -> bool, means: Text -> Silence, word: Rune -> bool,
                         lower: Rune -> Rune)
  {
    /** A '<' is spoken, and is no punctuation, space or part of a word; letters make words. */
    predicate Valid() {
      speakable(LT) && !lead(LT) && !word(LT) && forall i :: 1 <= i < |SILENT| ==> word(SILENT[i])
    }
  }

  datatype Mark = Maybe | Words | Marker(silence: Silence)

  function Index(s: Text, r: Rune): (i: nat)
    ensures i <= |s| && (i < |s| ==> s[i] == r)
    ensures forall k :: 0 <= k < i ==> s[k] != r
  {
    if s == [] || s[0] == r then 0 else 1 + Index(s[1..], r)
  }

  /** What begins at the start of b. */
  function MarkOf(v: Voice, b: Text): Mark {
    if !(SILENT <= b) then if b <= SILENT then Maybe else Words
    else if Index(b, GT) == |b| then if Bytes(b) > 64 then Words else Maybe
    else Marker(v.means(b[|SILENT|..Index(b, GT)]))
  }

  function Kept(v: Voice, s: Text): Text {
    if s == [] then [] else (if v.speakable(s[0]) then [s[0]] else []) + Kept(v, s[1..])
  }

  function Trimmed(v: Voice, s: Text): Text {
    if s == [] || !v.lead(s[0]) then s else Trimmed(v, s[1..])
  }

  /** What is said so far, whether its beginning is still trimmed, what is held back, and what
      ended it. */
  datatype State = State(said: Text, trim: bool, held: Text, ended: bool, silence: Silence)

  /** Text goes to the voice. */
  function Say(v: Voice, s: State, t: Text): State {
    var rest := if s.trim then Trimmed(v, t) else t;
    s.(said := s.said + Kept(v, rest), trim := s.trim && rest == [])
  }

  // The reference: one rune after another.

  /** Text u follows what was said. */
  function Run(v: Voice, s: State, u: Text): State
    decreases |u|
  {
    if u == [] then s.(held := [])
    else if u[0] != LT then Run(v, Say(v, s, [u[0]]), u[1..])
    else match MarkOf(v, u)
      case Maybe => s.(held := u)
      case Words => Run(v, Say(v, s, [LT]), u[1..])
      case Marker(silence) => s.(held := u, ended := true, silence := silence)
  }

  /** A piece arrives. */
  function Piece(v: Voice, s: State, p: Text): State {
    if s.ended then s else Run(v, s, s.held + p)
  }

  /** The reply is written: a marker that was never closed is a silence all the same. */
  function Flushed(v: Voice, s: State): State {
    if s.ended then s
    else if SILENT <= s.held then s.(ended := true)
    else Say(v, s, s.held).(held := [])
  }

  function Pieces(v: Voice, s: State, ps: seq<Text>): State
    decreases |ps|
  {
    if ps == [] then s else Pieces(v, Piece(v, s, ps[0]), ps[1..])
  }

  function Joined(ps: seq<Text>): Text {
    if ps == [] then [] else ps[0] + Joined(ps[1..])
  }

  /** What a listener and the agent can tell. */
  datatype Outcome = Outcome(said: Text, ended: bool, silence: Silence)

  function Result(v: Voice, s: State, ps: seq<Text>): Outcome {
    var t := Flushed(v, Pieces(v, s, ps));
    Outcome(t.said, t.ended, t.silence)
  }

  /** Each marker that u reaches closes within 65 bytes, or never. */
  predicate Closes(v: Voice, u: Text)
    decreases |u|
  {
    if u == [] then true
    else if u[0] != LT then Closes(v, u[1..])
    else match MarkOf(v, u)
      case Maybe => true
      case Words => Closes(v, u[1..])
      case Marker(_) => Bytes(u[..Index(u, GT)]) <= 64
  }

  // Pieces do not matter.

  lemma {:induction false} IndexJoins(s: Text, t: Text, r: Rune)
    ensures Index(s + t, r) == if Index(s, r) < |s| then Index(s, r) else |s| + Index(t, r)
  {
    if s == [] {
      assert s + t == t;
    } else {
      assert (s + t)[1..] == s[1..] + t;
      IndexJoins(s[1..], t, r);
    }
  }

  lemma {:induction false} BytesJoin(s: Text, t: Text)
    ensures Bytes(s + t) == Bytes(s) + Bytes(t)
  {
    if s == [] {
      assert s + t == t;
    } else {
      assert (s + t)[1..] == s[1..] + t;
      BytesJoin(s[1..], t);
    }
  }

  /** What is decided of u stays decided when more follows, if markers close in time. */
  lemma MarkStays(v: Voice, u: Text, p: Text)
    requires u != [] && u[0] == LT && Closes(v, u + p)
    ensures MarkOf(v, u) == Maybe || MarkOf(v, u + p) == MarkOf(v, u)
  {
    hide Bytes;
    var w := u + p;
    IndexJoins(u, p, GT);
    BytesJoin(u, p);
    if SILENT <= u {
      assert w[..|SILENT|] == u[..|SILENT|];
      if Index(u, GT) < |u| {
        assert w[|SILENT|..Index(w, GT)] == u[|SILENT|..Index(u, GT)];
      } else if Index(w, GT) < |w| {
        var e := Index(w, GT);
        assert w[..e] == u + p[..e - |u|];
        BytesJoin(u, p[..e - |u|]);
      }
    } else if SILENT <= w {
      assert u == w[..|u|];
      assert |u| < |SILENT| ==> u == SILENT[..|u|];
    } else if w <= SILENT {
      assert u == SILENT[..|u|];
    }
  }

  /** A piece cut in two. */
  lemma {:induction false} RunJoins(v: Voice, s: State, u: Text, p: Text)
    requires !s.ended && Closes(v, u + p)
    ensures var t := Run(v, s, u);
      var w := Run(v, s, u + p);
      if t.ended then w == t.(held := w.held) else w == Run(v, t, t.held + p) && Closes(v, t.held + p)
    decreases |u|
  {
    hide MarkOf, Say;
    if u == [] {
      assert u + p == p && [] + p == p;
      RunHeld(v, s, [], p);
    } else {
      assert (u + p)[1..] == u[1..] + p && (u + p)[0] == u[0];
      if u[0] != LT {
        SayKeeps(v, s, [u[0]]);
        RunJoins(v, Say(v, s, [u[0]]), u[1..], p);
      } else {
        MarkStays(v, u, p);
        match MarkOf(v, u)
        case Maybe => RunHeld(v, s, u, u + p);
        case Words =>
          SayKeeps(v, s, [LT]);
          RunJoins(v, Say(v, s, [LT]), u[1..], p);
        case Marker(_) =>
      }
    }
  }

  lemma SayKeeps(v: Voice, s: State, t: Text)
    ensures Say(v, s, t).ended == s.ended && Say(v, s, t).silence == s.silence
    ensures Say(v, s.(held := []), t).(held := s.held) == Say(v, s, t)
  {
  }

  /** What was held does not matter to what follows. */
  lemma {:induction false} RunHeld(v: Voice, s: State, held: Text, u: Text)
    ensures Run(v, s.(held := held), u) == Run(v, s, u)
    decreases |u|
  {
    hide MarkOf;
    if u != [] {
      RunHeld(v, Say(v, s, [u[0]]), held, u[1..]);
    }
  }

  /** For any pieces, the state is that of the whole reply written at once. */
  lemma {:induction false} PiecesAreWhole(v: Voice, s: State, ps: seq<Text>)
    requires !s.ended && Closes(v, s.held + Joined(ps)) && Run(v, s, s.held) == s
    ensures var t := Pieces(v, s, ps);
      t == Run(v, s, s.held + Joined(ps)).(held := t.held)
    ensures !Pieces(v, s, ps).ended ==> Pieces(v, s, ps).held == Run(v, s, s.held + Joined(ps)).held
    decreases |ps|
  {
    hide Closes, Run;
    if ps == [] {
      assert s.held + Joined(ps) == s.held;
    } else {
      assert s.held + Joined(ps) == (s.held + ps[0]) + Joined(ps[1..]);
      var t := Piece(v, s, ps[0]);
      RunJoins(v, s, s.held + ps[0], Joined(ps[1..]));
      if t.ended {
        EndedStays(v, t, ps[1..]);
      } else {
        RunAgain(v, s, s.held + ps[0]);
        PiecesAreWhole(v, t, ps[1..]);
      }
    }
  }

  lemma {:induction false} EndedStays(v: Voice, s: State, ps: seq<Text>)
    requires s.ended
    ensures Pieces(v, s, ps) == s
    decreases |ps|
  {
    if ps != [] {
      EndedStays(v, s, ps[1..]);
    }
  }

  /** What is held stays held. */
  lemma {:induction false} RunAgain(v: Voice, s: State, u: Text)
    requires !s.ended
    ensures var t := Run(v, s, u); !t.ended ==> Run(v, t, t.held) == t
    decreases |u|
  {
    hide MarkOf;
    if u != [] {
      if u[0] != LT {
        RunAgain(v, Say(v, s, [u[0]]), u[1..]);
      } else if MarkOf(v, u) == Words {
        RunAgain(v, Say(v, s, [LT]), u[1..]);
      }
    }
  }

  /** The reply before its first piece; trim after a repetition was cut. */
  function Begin(trim: bool): State {
    State([], trim, [], false, Silence(0, []))
  }

  /** For any split into pieces, what is said, whether a marker ended it, and what the marker asks
      for are those of one whole write, if each marker reached closes within 65 bytes or never. */
  lemma PiecesDoNotMatter(v: Voice, trim: bool, ps: seq<Text>)
    requires Closes(v, Joined(ps))
    ensures Result(v, Begin(trim), ps) == Result(v, Begin(trim), [Joined(ps)])
  {
    hide Closes, Run;
    var s, u := Begin(trim), Joined(ps);
    assert [] + u == u && Joined([u]) == u by {
      assert u + Joined([][..]) == u;
      assert [u][1..] == [];
    }
    EmptyRun(v, s);
    PiecesAreWhole(v, s, ps);
    PiecesAreWhole(v, s, [u]);
  }

  lemma EmptyRun(v: Voice, s: State)
    requires s.held == []
    ensures Run(v, s, s.held) == s
  {
  }

  // Only then.

  lemma {:induction false} BytesBound(s: Text)
    ensures |s| <= Bytes(s) <= 4 * |s|
  {
    if s != [] {
      BytesBound(s[1..]);
    }
  }

  /** What is said is never taken back. */
  lemma {:induction false} SaidGrows(v: Voice, s: State, u: Text)
    ensures |Run(v, s, u).said| >= |s.said|
    decreases |u|
  {
    hide MarkOf;
    if u != [] {
      SaidGrows(v, Say(v, s, [u[0]]), u[1..]);
    }
  }

  /** Without '>' no marker ends the reply. */
  lemma {:induction false} OpenNeverEnds(v: Voice, s: State, u: Text)
    requires !s.ended && Index(u, GT) == |u|
    ensures !Run(v, s, u).ended
    decreases |u|
  {
    if u != [] {
      OpenNeverEnds(v, Say(v, s, [u[0]]), u[1..]);
    }
  }

  lemma {:induction false} OpenCloses(v: Voice, u: Text)
    requires Index(u, GT) == |u|
    ensures Closes(v, u)
    decreases |u|
  {
    if u != [] {
      OpenCloses(v, u[1..]);
    }
  }

  lemma {:induction false} IndexOfPrefix(u: Text, k: nat, r: Rune)
    requires k <= Index(u, r)
    ensures Index(u[..k], r) == k
    decreases k
  {
    if k > 0 {
      assert u[..k][1..] == u[1..][..k - 1] && u[..k][0] == u[0];
      IndexOfPrefix(u[1..], k - 1, r);
    }
  }

  lemma {:induction false} IndexAtLeast(u: Text, k: nat, r: Rune)
    requires k <= |u| && forall j :: 0 <= j < k ==> u[j] != r
    ensures Index(u, r) >= k
    decreases k
  {
    if k > 0 {
      IndexAtLeast(u[1..], k - 1, r);
    }
  }

  /** What is decided to be text is so of any prefix that could hold a marker. */
  lemma WordsEarlier(v: Voice, u: Text, k: nat)
    requires u != [] && MarkOf(v, u) == Words && !Closes(v, u[1..]) && |SILENT| <= k <= |u|
    ensures MarkOf(v, u[..k]) == Words
  {
    var w := u[..k];
    if SILENT <= u && Index(u, GT) == |u| {
      IndexTail(u);
      OpenCloses(v, u[1..]);
    }
    assert SILENT <= w <==> SILENT <= u by {
      assert w[..|SILENT|] == u[..|SILENT|];
    }
    assert w <= SILENT ==> w == SILENT;
  }

  lemma IndexTail(u: Text)
    requires u != [] && Index(u, GT) == |u|
    ensures Index(u[1..], GT) == |u[1..]|
  {
  }

  /** If a marker that is reached closes too late, there is a split that speaks it. */
  lemma {:induction false} LateSplit(v: Voice, s: State, u: Text) returns (k: nat)
    requires v.Valid() && !s.ended && !Closes(v, u)
    ensures |SILENT| <= k <= |u| && Run(v, s, u).ended && !Run(v, s, u[..k]).ended
    ensures |Run(v, s, u[..k]).said| > |Run(v, s, u).said|
    decreases |u|
  {
    hide Bytes;
    if u[0] != LT || MarkOf(v, u) == Words {
      var t := Say(v, s, [u[0]]);
      var i := LateSplit(v, t, u[1..]);
      k := i + 1;
      assert u[..k][1..] == u[1..][..i] && u[..k][0] == u[0];
      if u[0] == LT {
        WordsEarlier(v, u, k);
      }
    } else {
      k := Index(u, GT);
      SilentIsBefore(u);
      IndexOfPrefix(u, k, GT);
      var w := u[..k];
      assert w[..|SILENT|] == u[..|SILENT|];
      assert MarkOf(v, w) == Words;
      var t := Say(v, s, [LT]);
      assert |t.said| == |s.said| + 1 by {
        SaysOne(v, s);
      }
      IndexTail(w);
      OpenNeverEnds(v, t, w[1..]);
      SaidGrows(v, t, w[1..]);
    }
  }

  lemma SilentIsBefore(u: Text)
    requires SILENT <= u
    ensures Index(u, GT) >= |SILENT|
  {
    assert forall j :: 0 <= j < |SILENT| ==> u[j] == SILENT[j];
    IndexAtLeast(u, |SILENT|, GT);
  }

  lemma SaysOne(v: Voice, s: State)
    requires v.Valid()
    ensures Say(v, s, [LT]).said == s.said + [LT]
  {
    assert Trimmed(v, [LT]) == [LT];
    assert Kept(v, [LT]) == [LT] + Kept(v, [LT][1..]);
  }

  /** Pieces do not matter exactly when each marker reached closes within 65 bytes or never. */
  lemma PiecesDoNotMatterIff(v: Voice, trim: bool, u: Text)
    requires v.Valid()
    ensures Closes(v, u) <==>
      forall ps: seq<Text> :: Joined(ps) == u ==> Result(v, Begin(trim), ps) == Result(v, Begin(trim), [u])
  {
    if Closes(v, u) {
      forall ps: seq<Text> | Joined(ps) == u ensures Result(v, Begin(trim), ps) == Result(v, Begin(trim), [u]) {
        PiecesDoNotMatter(v, trim, ps);
      }
    } else {
      var k := LateSplit(v, Begin(trim), u);
      var ps := [u[..k], u[k..]];
      TwoPieces(v, trim, u, k);
      assert Joined(ps) == u;
    }
  }

  lemma TwoPieces(v: Voice, trim: bool, u: Text, k: nat)
    requires k <= |u|
    requires Run(v, Begin(trim), u).ended && !Run(v, Begin(trim), u[..k]).ended
    requires |Run(v, Begin(trim), u[..k]).said| > |Run(v, Begin(trim), u).said|
    ensures Joined([u[..k], u[k..]]) == u
    ensures |Result(v, Begin(trim), [u[..k], u[k..]]).said| > |Result(v, Begin(trim), [u]).said|
  {
    hide Run;
    var s := Begin(trim);
    var a, b := u[..k], u[k..];
    assert [a, b][1..] == [b] && [b][1..] == [] && [u][1..] == [];
    assert b + [] == b && a + b == u;
    assert Joined([b]) == b;
    assert [] + a == a && [] + u == u;
    assert Pieces(v, s, [u]) == Piece(v, s, u);
    var t := Run(v, s, a);
    assert Pieces(v, s, [a, b]) == Pieces(v, t, [b]) == Piece(v, t, b);
    SaidGrows(v, t, t.held + b);
  }

  // The echo guard.

  /** How much of a reply repeats the message; or that it may yet turn out to; or neither. */
  datatype Echo = Repeats(n: nat) | Holding | Differs

  /** A repetition behind i runes. */
  function Behind(i: nat, e: Echo): Echo {
    match e
    case Repeats(n) => Repeats(i + n)
    case e => e
  }

  /** How many runes at the start are of words, or are not. */
  function Span(v: Voice, u: Text, word: bool): (n: nat)
    ensures n <= |u| && (n < |u| ==> v.word(u[n]) != word)
    ensures forall k :: 0 <= k < n ==> v.word(u[k]) == word
  {
    if u == [] || v.word(u[0]) != word then 0 else 1 + Span(v, u[1..], word)
  }

  function Lower(v: Voice, u: Text): (r: Text)
    ensures |r| == |u| && forall i :: 0 <= i < |u| ==> r[i] == v.lower(u[i])
  {
    seq(|u|, i requires 0 <= i < |u| => v.lower(u[i]))
  }

  /** The words of u against those of the message, one by one. */
  function Echoes(v: Voice, words: seq<Text>, u: Text): (e: Echo)
    ensures e.Repeats? ==> e.n <= |u| && (words != [] ==> e.n > 0)
    decreases |words|
  {
    var i := Span(v, u, false);
    var j := i + Span(v, u[i..], true);
    if words == [] then Repeats(0)
    else if i == |u| then Holding
    else if j == |u| then if Lower(v, u[i..]) <= words[0] then Holding else Differs
    else if Lower(v, u[i..j]) != words[0] then Differs
    else Behind(j, Echoes(v, words[1..], u[j..]))
  }

  /** The first words of u are said, without a repetition. */
  function Opened(v: Voice, words: seq<Text>, s: State, u: Text, n: nat): State
    requires n <= |u|
  {
    match EchoOf(v, words, u[..n])
    case Repeats(k) => Say(v, s.(trim := true), u[k..n])
    case _ => Say(v, s, u[..n])
  }

  const ECHO_WORDS := 3

  /** Messages of fewer words are answered, not repeated. */
  function EchoOf(v: Voice, words: seq<Text>, u: Text): (e: Echo)
    ensures e.Repeats? ==> 0 < e.n <= |u|
  {
    if |words| < ECHO_WORDS then Differs else Echoes(v, words, u)
  }

  /** A writer whose guard is not decided, or is, with a repetition cut or not; or one whose loop
      goes round for ever. */
  datatype Guarded = Forever | Undecided(s: State) | Decided(echoed: bool, s: State)

  /** Text u has arrived, and none of it was spoken. */
  function Arrive(v: Voice, words: seq<Text>, u: Text): Guarded {
    var lt := Index(u, LT);
    if u == [] then Undecided(Begin(false))
    else if lt == 0 then match MarkOf(v, u)
      case Maybe => Undecided(Begin(false).(held := u))
      case Words => if |words| < ECHO_WORDS then Decided(false, Run(v, Begin(false), u)) else Forever
      case Marker(silence) => Undecided(Begin(false).(held := u, ended := true, silence := silence))
    else match EchoOf(v, words, u[..lt])
      case Holding => if lt == |u| then Undecided(Begin(false).(held := u)) else Forever
      case Repeats(k) => Decided(true, Run(v, Begin(true), u[k..]))
      case Differs => Decided(false, Run(v, Begin(false), u))
  }

  function GuardedPiece(v: Voice, words: seq<Text>, g: Guarded, p: Text): Guarded {
    match g
    case Forever => Forever
    case Undecided(s) => if s.ended then g else Arrive(v, words, s.held + p)
    case Decided(echoed, s) => Decided(echoed, Piece(v, s, p))
  }

  function GuardedPieces(v: Voice, words: seq<Text>, g: Guarded, ps: seq<Text>): Guarded
    decreases |ps|
  {
    if ps == [] then g else GuardedPieces(v, words, GuardedPiece(v, words, g, ps[0]), ps[1..])
  }

  /** What was held for its beginning is spoken, whatever it is. */
  function GuardedFlush(v: Voice, words: seq<Text>, g: Guarded): Guarded {
    match g
    case Forever => Forever
    case Undecided(s) =>
      if s.ended || s.held == [] then g
      else if SILENT <= s.held then Undecided(s.(ended := true))
      else (match EchoOf(v, words, s.held)
        case Repeats(k) => Decided(true, Say(v, Begin(true), s.held[k..]).(held := []))
        case _ => Decided(false, Say(v, s, s.held).(held := [])))
    case Decided(echoed, s) => Decided(echoed, Flushed(v, s))
  }

  datatype Ending = Endless | Done(outcome: Outcome)

  function EndingOf(g: Guarded): Ending {
    match g
    case Forever => Endless
    case Undecided(s) => Done(Outcome(s.said, s.ended, s.silence))
    case Decided(_, s) => Done(Outcome(s.said, s.ended, s.silence))
  }

  /** A reply written in pieces. */
  function GuardedResult(v: Voice, words: seq<Text>, ps: seq<Text>): Ending {
    EndingOf(GuardedFlush(v, words, GuardedPieces(v, words, Undecided(Begin(false)), ps)))
  }

  /** What comes before the first '<' may yet repeat the message, or that '<' begins the reply and
      no marker. */
  predicate Stuck(v: Voice, words: seq<Text>, u: Text) {
    var lt := Index(u, LT);
    lt < |u| &&
    if lt == 0 then |words| >= ECHO_WORDS && MarkOf(v, u) == Words else EchoOf(v, words, u[..lt]) == Holding
  }

  /** The reply as a whole: without the repetition that it begins with. */
  function Cut(v: Voice, words: seq<Text>, u: Text): Ending {
    if Stuck(v, words, u) then Endless else
      match EchoOf(v, words, u[..Index(u, LT)])
      case Repeats(k) => Done(Result(v, Begin(true), [u[k..]]))
      case _ => Done(Result(v, Begin(false), [u]))
  }

  // What the guard does, for any pieces.

  lemma {:induction false} SpanOf(v: Voice, u: Text, n: nat, word: bool)
    requires n <= |u| && (n < |u| ==> v.word(u[n]) != word)
    requires forall k :: 0 <= k < n ==> v.word(u[k]) == word
    ensures Span(v, u, word) == n
    decreases n
  {
    if n > 0 {
      SpanOf(v, u[1..], n - 1, word);
    }
  }

  /** Where a word ends in a prefix, or where the prefix ends in it. */
  lemma SpanOfPrefix(v: Voice, u: Text, k: nat, word: bool)
    requires k <= |u|
    ensures Span(v, u[..k], word) == if k < Span(v, u, word) then k else Span(v, u, word)
  {
    SpanOf(v, u[..k], if k < Span(v, u, word) then k else Span(v, u, word), word);
  }

  /** The first word of u is u[i..j]. */
  lemma EchoesBy(v: Voice, words: seq<Text>, u: Text, i: nat, j: nat)
    requires words != [] && i == Span(v, u, false) && j == i + Span(v, u[i..], true)
    ensures Echoes(v, words, u) ==
      if i == |u| then Holding
      else if j == |u| then if Lower(v, u[i..]) <= words[0] then Holding else Differs
      else if Lower(v, u[i..j]) != words[0] then Differs
      else Behind(j, Echoes(v, words[1..], u[j..]))
  {
    hide Span, Lower, Behind;
  }

  /** A repetition is known as one only when something follows its last word. */
  lemma {:induction false} RepeatsInside(v: Voice, words: seq<Text>, u: Text)
    requires words != [] && Echoes(v, words, u).Repeats?
    ensures Echoes(v, words, u).n < |u| && !v.word(u[Echoes(v, words, u).n])
    decreases |words|
  {
    hide Echoes, Lower;
    var i := Span(v, u, false);
    var j := i + Span(v, u[i..], true);
    EchoesBy(v, words, u, i, j);
    assert j < |u| ==> u[i..][j - i] == u[j];
    if |words| == 1 {
      assert words[1..] == [];
      EchoesNone(v, u[j..]);
    } else {
      RepeatsInside(v, words[1..], u[j..]);
      assert u[j..][Echoes(v, words[1..], u[j..]).n] == u[Echoes(v, words, u).n];
    }
  }

  lemma EchoesNone(v: Voice, u: Text)
    ensures Echoes(v, [], u) == Repeats(0)
  {
  }

  /** A beginning of u up to k, in its first word or before it. */
  lemma FirstWordHolds(v: Voice, words: seq<Text>, u: Text, i: nat, j: nat, k: nat)
    requires words != [] && i == Span(v, u, false) && j == i + Span(v, u[i..], true) && k <= j
    requires if j == |u| then Lower(v, u[i..]) <= words[0] else Lower(v, u[i..j]) == words[0]
    ensures Echoes(v, words, u[..k]) == Holding
  {
    hide Echoes, Span, Lower;
    var w := u[..k];
    SpanOfPrefix(v, u, k, false);
    if k <= i {
      EchoesBy(v, words, w, k, k + Span(v, w[k..], true));
    } else {
      assert w[i..] == u[i..][..k - i];
      SpanOfPrefix(v, u[i..], k - i, true);
      EchoesBy(v, words, w, i, k);
      LowerBegins(v, u[i..j], k - i);
      assert u[i..j][..k - i] == w[i..];
      assert j == |u| ==> u[i..j] == u[i..];
    }
  }

  lemma LowerBegins(v: Voice, u: Text, k: nat)
    requires k <= |u|
    ensures Lower(v, u[..k]) <= Lower(v, u)
  {
  }

  /** While a reply may turn out to be a repetition, so may every beginning of it. */
  lemma {:induction false} HoldingBefore(v: Voice, words: seq<Text>, u: Text, k: nat)
    requires Echoes(v, words, u) == Holding && k <= |u|
    ensures Echoes(v, words, u[..k]) == Holding
    decreases |words|
  {
    hide Echoes, Span, Lower;
    EchoesNone(v, u);
    var w := u[..k];
    var i := Span(v, u, false);
    var j := i + Span(v, u[i..], true);
    EchoesBy(v, words, u, i, j);
    if i == |u| {
      SpanOfPrefix(v, u, k, false);
      EchoesBy(v, words, w, k, k + Span(v, w[k..], true));
    } else if k <= j {
      FirstWordHolds(v, words, u, i, j, k);
    } else {
      SpanOfPrefix(v, u, k, false);
      assert w[i..] == u[i..][..k - i];
      SpanOfPrefix(v, u[i..], k - i, true);
      assert w[i..j] == u[i..j] && w[j..] == u[j..][..k - j];
      HoldingBefore(v, words[1..], u[j..], k - j);
      EchoesBy(v, words, w, i, j);
    }
  }

  /** Once it is known whether a reply repeats the message, more text changes nothing. */
  lemma {:induction false} KnownStays(v: Voice, words: seq<Text>, u: Text, x: Text)
    requires Echoes(v, words, u) != Holding
    ensures Echoes(v, words, u + x) == Echoes(v, words, u)
    decreases |words|
  {
    hide Echoes, Span, Lower;
    var y := u + x;
    if words == [] {
      EchoesNone(v, u);
      EchoesNone(v, y);
      return;
    }
    var i := Span(v, u, false);
    var j := i + Span(v, u[i..], true);
    EchoesBy(v, words, u, i, j);
    SpanMore(v, u, x, false);
    assert y[i..] == u[i..] + x;
    SpanMore(v, u[i..], x, true);
    if j < |u| {
      EchoesBy(v, words, y, i, j);
      assert y[i..j] == u[i..j] && y[j..] == u[j..] + x;
      if Lower(v, u[i..j]) == words[0] {
        KnownStays(v, words[1..], u[j..], x);
      }
    } else {
      WordDiffers(v, words, u, x, i);
    }
  }

  /** A last word that begins no word of the message still begins none when it goes on. */
  lemma WordDiffers(v: Voice, words: seq<Text>, u: Text, x: Text, i: nat)
    requires words != [] && i == Span(v, u, false) < |u| && i + Span(v, u[i..], true) == |u|
    requires !(Lower(v, u[i..]) <= words[0])
    ensures Echoes(v, words, u + x) == Differs
  {
    hide Echoes, Span, Lower;
    var y := u + x;
    SpanMore(v, u, x, false);
    assert y[i..] == u[i..] + x;
    SpanMore(v, u[i..], x, true);
    var m := Span(v, y[i..], true);
    EchoesBy(v, words, y, i, i + m);
    assert y[i..i + m] == y[i..][..m];
    TakenWhole(u[i..], x, m);
    LowerBegins(v, y[i..i + m], |u| - i);
    assert i + m == |y| ==> y[i..i + m] == y[i..];
  }

  lemma TakenWhole(a: Text, x: Text, m: nat)
    requires |a| <= m <= |a| + |x|
    ensures (a + x)[..m][..|a|] == a
  {
  }

  lemma SpanMore(v: Voice, u: Text, x: Text, word: bool)
    ensures Span(v, u, word) < |u| ==> Span(v, u + x, word) == Span(v, u, word)
    ensures Span(v, u, word) == |u| ==> Span(v, u + x, word) >= |u|
  {
    var n := Span(v, u, word);
    assert (u + x)[..|u|] == u;
    SpanOfPrefix(v, u + x, |u|, word);
  }

  lemma EchoStays(v: Voice, words: seq<Text>, u: Text, x: Text)
    ensures EchoOf(v, words, u) != Holding ==> EchoOf(v, words, u + x) == EchoOf(v, words, u)
    ensures EchoOf(v, words, u + x) == Holding ==> EchoOf(v, words, u) == Holding
  {
    hide Echoes;
    if |words| >= ECHO_WORDS && Echoes(v, words, u) != Holding {
      KnownStays(v, words, u, x);
    }
  }

  /** The text before the first '<' grows until there is one. */
  lemma LeadGrows(u: Text, x: Text)
    ensures var lead := (u + x)[..Index(u + x, LT)];
      if Index(u, LT) < |u| then lead == u[..Index(u, LT)] else lead == u + x[..Index(x, LT)]
    ensures Index(u + x, LT) == if Index(u, LT) < |u| then Index(u, LT) else |u| + Index(x, LT)
  {
    IndexJoins(u, x, LT);
  }

  lemma {:induction false} ClosesBehind(v: Voice, u: Text, k: nat)
    requires k <= Index(u, LT)
    ensures Closes(v, u) ==> Closes(v, u[k..])
    decreases k
  {
    if k == 0 {
      assert u[k..] == u;
    } else {
      ClosesBehind(v, u[1..], k - 1);
      assert u[k..] == u[1..][k - 1..];
    }
  }

  /** A loop that goes round for ever does so when more had come. */
  lemma StuckStays(v: Voice, words: seq<Text>, u: Text, x: Text)
    requires Arrive(v, words, u).Forever? && Closes(v, u + x)
    ensures Stuck(v, words, u) && Stuck(v, words, u + x)
  {
    hide Echoes, Closes, MarkOf;
    LeadGrows(u, x);
    if Index(u, LT) == 0 {
      MarkStays(v, u, x);
    }
  }

  /** How much is cut, as far as is known. */
  function Dropped(v: Voice, words: seq<Text>, u: Text): (k: nat)
    ensures k <= Index(u, LT)
  {
    match EchoOf(v, words, u[..Index(u, LT)])
    case Repeats(k) => k
    case _ => 0
  }

  /** A decision is that of the whole reply. */
  lemma DecisionStays(v: Voice, words: seq<Text>, u: Text, x: Text)
    requires Arrive(v, words, u).Decided? && Closes(v, u + x)
    ensures var (g, k) := (Arrive(v, words, u), Dropped(v, words, u));
      g.s == Run(v, Begin(g.echoed), u[k..]) &&
      Cut(v, words, u + x) == Done(Result(v, Begin(g.echoed), [u[k..] + x])) && Closes(v, u[k..] + x)
  {
    hide Echoes, Closes, MarkOf, Run, Result;
    var lt := Index(u, LT);
    var k := Dropped(v, words, u);
    LeadGrows(u, x);
    EchoStays(v, words, u, x[..Index(x, LT)]);
    ClosesBehind(v, u + x, k);
    assert (u + x)[k..] == u[k..] + x;
    assert u[0..] == u;
    assert lt == |u| ==> u[..lt] == u;
  }

  lemma MarkerStays(v: Voice, words: seq<Text>, u: Text, x: Text)
    requires Arrive(v, words, u).Undecided? && Arrive(v, words, u).s.ended && Closes(v, u + x)
    ensures Cut(v, words, u + x) == EndingOf(Arrive(v, words, u))
  {
    hide Closes, MarkOf, Say;
    MarkStays(v, u, x);
    LeadGrows(u, x);
    assert (u + x)[..0] == [];
    WholeIsRun(v, Begin(false), u + x);
  }

  lemma WholeIsRun(v: Voice, s: State, u: Text)
    requires s.held == [] && !s.ended
    ensures var t := Flushed(v, Run(v, s, u)); Result(v, s, [u]) == Outcome(t.said, t.ended, t.silence)
  {
    hide Run, Flushed;
    assert [u][1..] == [] && [] + u == u;
    assert Pieces(v, s, [u]) == Piece(v, s, u);
  }

  lemma {:induction false} ForeverStays(v: Voice, words: seq<Text>, ps: seq<Text>)
    ensures GuardedPieces(v, words, Forever, ps) == Forever
    decreases |ps|
  {
    if ps != [] {
      ForeverStays(v, words, ps[1..]);
    }
  }

  lemma {:induction false} GuardEnded(v: Voice, words: seq<Text>, s: State, ps: seq<Text>)
    requires s.ended
    ensures GuardedPieces(v, words, Undecided(s), ps) == Undecided(s)
    decreases |ps|
  {
    if ps != [] {
      GuardEnded(v, words, s, ps[1..]);
    }
  }

  lemma {:induction false} GuardDecided(v: Voice, words: seq<Text>, echoed: bool, s: State, ps: seq<Text>)
    ensures GuardedPieces(v, words, Decided(echoed, s), ps) == Decided(echoed, Pieces(v, s, ps))
    decreases |ps|
  {
    hide Piece;
    if ps != [] {
      GuardDecided(v, words, echoed, Piece(v, s, ps[0]), ps[1..]);
    }
  }

  /** What never was decided is spoken as it stands. */
  lemma FlushedWhole(v: Voice, words: seq<Text>, u: Text)
    requires v.Valid() && Arrive(v, words, u) == Undecided(Begin(false).(held := u))
    ensures EndingOf(GuardedFlush(v, words, Arrive(v, words, u))) == Cut(v, words, u)
  {
    hide Echoes, Say;
    WholeIsRun(v, Begin(false), u);
    if u != [] && u[0] == LT {
      if !(SILENT <= u) {
        PartOfMark(v, words, u);
      }
    } else {
      assert u + [] == u && u[..|u|] == u;
      RunSays(v, Begin(false), u, []);
      SayKeepsAll(v, Begin(false).(held := u), u);
      SayNothing(v, Say(v, Begin(false), u).(held := []));
      NoMark(u);
    }
  }

  lemma NoMark(u: Text)
    requires u == [] || u[0] != LT
    ensures !(SILENT <= u)
  {
  }

  lemma SayKeepsAll(v: Voice, s: State, u: Text)
    ensures Say(v, s.(held := []), u).said == Say(v, s, u).said && Say(v, s, u).ended == s.ended
    ensures Say(v, s.(held := []), u).ended == s.ended && Say(v, s.(held := []), u).silence == s.silence
    ensures Say(v, s, u).silence == s.silence
  {
  }

  /** One word repeats no message of three. */
  lemma PartOfMark(v: Voice, words: seq<Text>, u: Text)
    requires v.Valid() && u <= SILENT && u != []
    ensures !EchoOf(v, words, u).Repeats?
  {
    if |words| >= ECHO_WORDS {
      SpanOf(v, u, 1, false);
      SpanOf(v, u[1..], |u| - 1, true);
      EchoesBy(v, words, u, 1, |u|);
    }
  }

  /** What follows the decision is written as if the reply began there. */
  lemma AfterDecision(v: Voice, s: State, y: Text, ps: seq<Text>)
    requires s.held == [] && !s.ended
    ensures Pieces(v, s, [y] + ps) == Pieces(v, Run(v, s, y), ps)
    ensures Joined([y] + ps) == y + Joined(ps)
  {
    hide Run;
    assert ([y] + ps)[1..] == ps && [] + y == y;
  }

  lemma {:induction false} GuardedFrom(v: Voice, words: seq<Text>, x: Text, ps: seq<Text>)
    requires v.Valid() && Closes(v, x + Joined(ps))
    requires Arrive(v, words, x) == Undecided(Begin(false).(held := x))
    ensures EndingOf(GuardedFlush(v, words, GuardedPieces(v, words, Arrive(v, words, x), ps))) ==
      Cut(v, words, x + Joined(ps))
    decreases |ps|
  {
    hide Closes, Cut, EchoOf, MarkOf, Run, Result, Flushed, Arrive;
    if ps == [] {
      assert x + [] == x;
      FlushedWhole(v, words, x);
    } else {
      var y, rest := x + ps[0], ps[1..];
      assert x + Joined(ps) == y + Joined(rest);
      var g := Arrive(v, words, y);
      assert GuardedPieces(v, words, Arrive(v, words, x), ps) == GuardedPieces(v, words, g, rest);
      if g.Forever? {
        ForeverStays(v, words, rest);
        StuckStays(v, words, y, Joined(rest));
        StuckIsEndless(v, words, y + Joined(rest));
      } else if g.Decided? {
        GuardDecided(v, words, g.echoed, g.s, rest);
        DecisionStays(v, words, y, Joined(rest));
        Decides(v, g.echoed, y[Dropped(v, words, y)..], rest);
      } else if g.s.ended {
        GuardEnded(v, words, g.s, rest);
        MarkerStays(v, words, y, Joined(rest));
      } else {
        StillHeld(v, words, y);
        GuardedFrom(v, words, y, rest);
      }
    }
  }

  /** A reply that begins with a tag, or with a word of the message before one, is such a text. */
  lemma LoopsForEver(v: Voice, words: seq<Text>, r: Rune)
    requires v.Valid() && |words| >= ECHO_WORDS && v.word(r) && r != LT && [v.lower(r)] <= words[0]
    ensures Stuck(v, words, [LT, Ascii('b'), GT]) && Stuck(v, words, [r, LT])
  {
    assert Ascii('b') != SILENT[1];
    var u := [r, LT];
    assert u[..1] == [r];
    SpanOf(v, [r], 0, false);
    assert [r][0..] == [r];
    SpanOf(v, [r], 1, true);
    EchoesBy(v, words, [r], 0, 1);
    assert Lower(v, [r]) == [v.lower(r)];
    assert Index(u, LT) == 1 + Index(u[1..], LT);
  }

  lemma StuckIsEndless(v: Voice, words: seq<Text>, u: Text)
    requires Stuck(v, words, u)
    ensures Cut(v, words, u) == Endless
  {
  }

  lemma StillHeld(v: Voice, words: seq<Text>, u: Text)
    requires Arrive(v, words, u).Undecided? && !Arrive(v, words, u).s.ended
    ensures Arrive(v, words, u) == Undecided(Begin(false).(held := u))
  {
  }

  lemma Decides(v: Voice, trim: bool, y: Text, ps: seq<Text>)
    requires Closes(v, y + Joined(ps))
    ensures EndingOf(Decided(trim, Flushed(v, Pieces(v, Run(v, Begin(trim), y), ps)))) ==
      Done(Result(v, Begin(trim), [y + Joined(ps)]))
  {
    hide Closes, Run, Flushed;
    AfterDecision(v, Begin(trim), y, ps);
    PiecesDoNotMatter(v, trim, [y] + ps);
  }

  /** With the guard too, pieces do not matter if each marker reached closes within 65 bytes or
      never: a repetition at the reply's beginning is cut, and the loop goes round for ever, exactly
      as for the reply as a whole. */
  lemma GuardedPiecesDoNotMatter(v: Voice, words: seq<Text>, ps: seq<Text>)
    requires v.Valid() && Closes(v, Joined(ps))
    ensures GuardedResult(v, words, ps) == Cut(v, words, Joined(ps))
    ensures GuardedResult(v, words, ps) == Endless <==> Stuck(v, words, Joined(ps))
  {
    hide Closes, EchoOf;
    assert [] + Joined(ps) == Joined(ps);
    GuardedFrom(v, words, [], ps);
  }

  // What is said, by the reply's own runes.

  /** A marker that ends the reply, if the reply is u from here: it is closed, or may be. */
  predicate Stops(u: Text) {
    SILENT <= u && (Index(u, GT) < |u| || Bytes(u) <= 64)
  }

  function MarkerAt(u: Text): (i: nat)
    ensures i <= |u| && (i < |u| ==> Stops(u[i..]))
    ensures forall j :: 0 <= j < i ==> !Stops(u[j..])
  {
    if u == [] || Stops(u) then 0 else
      var i := 1 + MarkerAt(u[1..]);
      assert i < |u| ==> u[i..] == u[1..][i - 1..];
      assert forall j :: 1 <= j < i ==> u[j..] == u[1..][j - 1..];
      i
  }

  lemma MarkerAtIs(u: Text, i: nat)
    requires i <= |u| && (i < |u| ==> Stops(u[i..])) && forall j :: 0 <= j < i ==> !Stops(u[j..])
    ensures MarkerAt(u) == i
  {
  }

  /** What the marker that u begins with asks for, once closed. */
  function SilenceAt(v: Voice, u: Text, none: Silence): Silence {
    if SILENT <= u && Index(u, GT) < |u| then
      SilentIsBefore(u);
      v.means(u[|SILENT|..Index(u, GT)])
    else none
  }

  /** What a whole reply says is what comes before its marker. */
  lemma {:induction false} RunSaid(v: Voice, s: State, u: Text)
    requires !s.ended
    ensures var (f, i) := (Flushed(v, Run(v, s, u)), MarkerAt(u));
      && f.said == Say(v, s, u[..i]).said && (f.ended <==> i < |u|) && f.silence == SilenceAt(v, u[i..], s.silence)
    decreases |u|
  {
    hide Bytes, Say, Run, MarkOf, Flushed, MarkerAt, SilenceAt;
    if u == [] {
      NothingSaid(v, s);
    } else if u[0] != LT || MarkOf(v, u) == Words {
      NotYet(v, u);
      SayEnded(v, s, [u[0]]);
      RunGoesOn(v, s, u);
      RunSaid(v, Say(v, s, [u[0]]), u[1..]);
      OneOff(u, MarkerAt(u));
      SayJoins(v, s, [u[0]], u[1..][..MarkerAt(u) - 1]);
    } else {
      RunStops(v, s, u);
    }
  }

  lemma OneOff(u: Text, i: nat)
    requires 0 < i <= |u|
    ensures u[..i] == [u[0]] + u[1..][..i - 1] && u[i..] == u[1..][i - 1..]
  {
  }

  lemma NothingSaid(v: Voice, s: State)
    requires !s.ended
    ensures var f := Flushed(v, Run(v, s, []));
      MarkerAt([]) == 0 && f.said == Say(v, s, []).said && !f.ended && f.silence == s.silence
    ensures SilenceAt(v, [], s.silence) == s.silence
  {
  }

  lemma RunGoesOn(v: Voice, s: State, u: Text)
    requires u != [] && (u[0] != LT || MarkOf(v, u) == Words)
    ensures Run(v, s, u) == Run(v, Say(v, s, [u[0]]), u[1..])
  {
    hide Say, MarkOf;
  }

  /** The reply stops at a '<', or is held there to its end. */
  lemma RunStops(v: Voice, s: State, u: Text)
    requires !s.ended && u != [] && u[0] == LT && MarkOf(v, u) != Words
    ensures var (f, i) := (Flushed(v, Run(v, s, u)), MarkerAt(u));
      && f.said == Say(v, s, u[..i]).said && (f.ended <==> i < |u|) && f.silence == SilenceAt(v, u[i..], s.silence)
  {
    hide Bytes, Say, Run, MarkerAt;
    StepRun(v, s, u);
    if SILENT <= u {
      MarkerAtIs(u, 0);
      assert u[0..] == u && u[..0] == [];
      SayNothing(v, s);
    } else {
      PartHasNone(u);
      assert u[..|u|] == u && u[|u|..] == [];
      SayHeld(v, s, u, u);
      SayEnded(v, s, u);
    }
  }

  lemma SayEnded(v: Voice, s: State, t: Text)
    ensures Say(v, s, t).ended == s.ended && Say(v, s, t).silence == s.silence
  {
  }

  lemma NotYet(v: Voice, u: Text)
    requires u != [] && (u[0] != LT || MarkOf(v, u) == Words)
    ensures !Stops(u) && MarkerAt(u) == 1 + MarkerAt(u[1..])
  {
    NoMark(if u[0] != LT then u else []);
  }

  /** What may yet be a marker has none. */
  lemma PartHasNone(u: Text)
    requires u <= SILENT && !(SILENT <= u)
    ensures MarkerAt(u) == |u|
  {
    MarkerAtIs(u, |u|);
  }

  ghost predicate Upward(idx: seq<nat>) {
    forall i, j :: 0 <= i < j < |idx| ==> idx[i] < idx[j]
  }

  ghost predicate Among(v: Voice, u: Text, a: nat, b: nat, said: Text, idx: seq<nat>)
    requires b <= |u| && |idx| == |said|
  {
    forall j :: 0 <= j < |idx| ==> a <= idx[j] < b && v.speakable(u[idx[j]]) && said[j] == u[idx[j]]
  }

  ghost predicate Every(v: Voice, u: Text, a: nat, b: nat, idx: seq<nat>)
    requires b <= |u|
  {
    forall i :: a <= i < b && v.speakable(u[i]) ==> i in idx
  }

  /** said is made of the speakable runes of u from a to b, in order and each once; idx tells where
      each is. */
  ghost predicate Picks(v: Voice, u: Text, a: nat, b: nat, said: Text, idx: seq<nat>) {
    b <= |u| && |idx| == |said| && Upward(idx) && Among(v, u, a, b, said, idx) && Every(v, u, a, b, idx)
  }

  lemma {:induction false} KeptPicks(v: Voice, u: Text, a: nat, b: nat) returns (idx: seq<nat>)
    requires a <= b <= |u|
    ensures Picks(v, u, a, b, Kept(v, u[a..b]), idx)
    decreases b - a
  {
    hide Picks;
    if a == b {
      idx := [];
      NothingPicked(v, u, a);
      assert u[a..b] == [];
    } else {
      var c := b - 1;
      var front := KeptPicks(v, u, a, c);
      idx := if v.speakable(u[c]) then front + [c] else front;
      KeptLast(v, u, a, b);
      PickOne(v, u, a, b, Kept(v, u[a..c]), front);
    }
  }

  lemma NothingPicked(v: Voice, u: Text, a: nat)
    requires a <= |u|
    ensures Picks(v, u, a, a, Kept(v, []), [])
  {
  }

  lemma KeptLast(v: Voice, u: Text, a: nat, b: nat)
    requires a < b <= |u|
    ensures Kept(v, u[a..b]) == Kept(v, u[a..b - 1]) + if v.speakable(u[b - 1]) then [u[b - 1]] else []
  {
    assert u[a..b] == u[a..b - 1] + [u[b - 1]];
    KeptJoins(v, u[a..b - 1], [u[b - 1]]);
    assert [u[b - 1]][1..] == [];
    KeptNothing(v);
  }

  lemma PickOne(v: Voice, u: Text, a: nat, b: nat, said: Text, idx: seq<nat>)
    requires a < b <= |u| && Picks(v, u, a, b - 1, said, idx)
    ensures v.speakable(u[b - 1]) ==> Picks(v, u, a, b, said + [u[b - 1]], idx + [b - 1])
    ensures !v.speakable(u[b - 1]) ==> Picks(v, u, a, b, said + [], idx)
  {
    assert said + [] == said;
    EveryOne(v, u, a, b, idx);
    hide Every;
    if v.speakable(u[b - 1]) {
      AmongOne(v, u, a, b, said, idx);
      hide Among;
      UpwardOne(idx, b - 1);
    }
  }

  lemma UpwardOne(idx: seq<nat>, x: nat)
    requires Upward(idx) && forall j :: 0 <= j < |idx| ==> idx[j] < x
    ensures Upward(idx + [x])
  {
  }

  lemma AmongOne(v: Voice, u: Text, a: nat, b: nat, said: Text, idx: seq<nat>)
    requires a < b <= |u| && |idx| == |said| && Among(v, u, a, b - 1, said, idx) && v.speakable(u[b - 1])
    ensures Among(v, u, a, b, said + [u[b - 1]], idx + [b - 1])
    ensures forall j :: 0 <= j < |idx| ==> idx[j] < b - 1
  {
  }

  lemma EveryOne(v: Voice, u: Text, a: nat, b: nat, idx: seq<nat>)
    requires a < b <= |u| && Every(v, u, a, b - 1, idx)
    ensures v.speakable(u[b - 1]) ==> Every(v, u, a, b, idx + [b - 1])
    ensures !v.speakable(u[b - 1]) ==> Every(v, u, a, b, idx)
  {
    assert (idx + [b - 1])[|idx|] == b - 1;
  }

  /** How many runes at the start are trimmed. */
  lemma {:induction false} TrimmedIs(v: Voice, u: Text)
    ensures var n := |u| - |Trimmed(v, u)|;
      0 <= n <= |u| && Trimmed(v, u) == u[n..] && (n < |u| ==> !v.lead(u[n])) && forall i :: 0 <= i < n ==> v.lead(u[i])
  {
    if u != [] && v.lead(u[0]) {
      TrimmedIs(v, u[1..]);
      var n := |u| - |Trimmed(v, u)|;
      assert u[n..] == u[1..][n - 1..];
      assert forall i :: 1 <= i < n ==> u[i] == u[1..][i - 1];
    }
  }

  /** The marker is where it is, whatever came before it is cut. */
  lemma {:induction false} MarkerBehind(u: Text, k: nat)
    requires k <= Index(u, LT)
    ensures k <= |u| && MarkerAt(u) == k + MarkerAt(u[k..])
    decreases k
  {
    if k == 0 {
      assert u[0..] == u;
    } else {
      NoMark(u);
      MarkerBehind(u[1..], k - 1);
      assert u[k..] == u[1..][k - 1..];
    }
  }

  /** Where what is trimmed from a to b ends. */
  lemma TrimFrom(v: Voice, u: Text, a: nat, b: nat) returns (from: nat)
    requires a <= b <= |u| && (b < |u| ==> !v.lead(u[b]))
    ensures a <= from <= b && Trimmed(v, u[a..b]) == u[from..b]
    ensures (from < |u| ==> !v.lead(u[from])) && forall i :: a <= i < from ==> v.lead(u[i])
  {
    hide Trimmed;
    var w := u[a..b];
    TrimmedIs(v, w);
    from := b - |Trimmed(v, w)|;
    assert w[from - a..] == u[from..b];
    assert forall i :: a <= i < from ==> w[i - a] == u[i];
    if from < b {
      assert w[from - a] == u[from];
    }
  }

  lemma WholeSays(v: Voice, u: Text, k: nat, trim: bool) returns (from: nat, idx: seq<nat>)
    requires v.Valid() && k <= Index(u, LT)
    ensures var (o, to) := (Result(v, Begin(trim), [u[k..]]), MarkerAt(u));
      && k <= from <= to && (trim && from < |u| ==> !v.lead(u[from])) && (forall i :: k <= i < from ==> v.lead(u[i]))
      && (!trim ==> from == k) && Picks(v, u, from, to, o.said, idx)
      && (o.ended <==> to < |u|)
      && o.silence == SilenceAt(v, u[to..], Silence(0, []))
  {
    hide *;
    var to := MarkerAt(u);
    MarkerBehind(u, k);
    LTAtMarker(v, u);
    from := k;
    if trim {
      from := TrimFrom(v, u, k, to);
    }
    idx := KeptPicks(v, u, from, to);
    WholeOutcome(v, u, k, trim);
  }

  lemma LTAtMarker(v: Voice, u: Text)
    requires v.Valid()
    ensures MarkerAt(u) <= |u| && (MarkerAt(u) < |u| ==> !v.lead(u[MarkerAt(u)]))
  {
    hide MarkerAt, Stops;
    var to := MarkerAt(u);
    if to < |u| {
      StopsAtLT(u[to..]);
      assert u[to] == u[to..][0];
    }
  }

  lemma WholeOutcome(v: Voice, u: Text, k: nat, trim: bool)
    requires k <= Index(u, LT)
    ensures var (o, to) := (Result(v, Begin(trim), [u[k..]]), MarkerAt(u));
      && k <= to <= |u| && o.said == Kept(v, if trim then Trimmed(v, u[k..to]) else u[k..to])
      && (o.ended <==> to < |u|) && o.silence == SilenceAt(v, u[to..], Silence(0, []))
  {
    hide *;
    MarkerBehind(u, k);
    OutcomeAtOnce(v, u[k..], trim);
    assert u[k..][MarkerAt(u[k..])..] == u[MarkerAt(u)..] && u[k..][..MarkerAt(u[k..])] == u[k..MarkerAt(u)];
  }

  lemma OutcomeAtOnce(v: Voice, u: Text, trim: bool)
    ensures var (o, to) := (Result(v, Begin(trim), [u]), MarkerAt(u));
      && o.said == Kept(v, if trim then Trimmed(v, u[..to]) else u[..to])
      && (o.ended <==> to < |u|) && o.silence == SilenceAt(v, u[to..], Silence(0, []))
  {
    hide Run, MarkerAt, Flushed, Stops, Say, SilenceAt, Kept, Trimmed, Result;
    WholeIsRun(v, Begin(trim), u);
    RunSaid(v, Begin(trim), u);
    BeginSays(v, trim, u[..MarkerAt(u)]);
  }

  lemma BeginSays(v: Voice, trim: bool, t: Text)
    ensures Say(v, Begin(trim), t).said == Kept(v, if trim then Trimmed(v, t) else t)
  {
    var r := Kept(v, if trim then Trimmed(v, t) else t);
    assert [] + r == r;
  }

  lemma StopsAtLT(u: Text)
    requires Stops(u)
    ensures u != [] && u[0] == LT
  {
    assert SILENT[0] == LT;
  }

  /** What a reply says, in whatever pieces it comes: its speakable runes, in order and each once, up
      to its marker or its end; without the repetition it begins with, and then from the first rune
      on that is no punctuation or space. It ends at the marker, with the silence written there. */
  lemma ReplySays(v: Voice, words: seq<Text>, ps: seq<Text>) returns (from: nat, to: nat, idx: seq<nat>)
    requires v.Valid() && Closes(v, Joined(ps)) && !Stuck(v, words, Joined(ps))
    ensures var (u, r) := (Joined(ps), GuardedResult(v, words, ps));
      && r.Done? && from <= to <= |u|
      && (to < |u| ==> Stops(u[to..])) && (forall j :: 0 <= j < to ==> !Stops(u[j..]))
      && Picks(v, u, from, to, r.outcome.said, idx)
      && (match EchoOf(v, words, u[..Index(u, LT)])
          case Repeats(k) =>
            k <= from && (from < |u| ==> !v.lead(u[from])) && forall i :: k <= i < from ==> v.lead(u[i])
          case _ => from == 0)
      && (r.outcome.ended <==> to < |u|)
      && r.outcome.silence == SilenceAt(v, u[to..], Silence(0, []))
  {
    hide Closes, Index, Result, GuardedResult, Echoes, Bytes;
    var u := Joined(ps);
    GuardedPiecesDoNotMatter(v, words, ps);
    var k := Dropped(v, words, u);
    var trim := EchoOf(v, words, u[..Index(u, LT)]).Repeats?;
    assert u[0..] == u;
    from, idx := WholeSays(v, u, k, trim);
    to := MarkerAt(u);
  }

  // What a repetition is, by words.

  /** The words of u: its longest runs of runes of words. */
  function Fields(v: Voice, u: Text): seq<Text>
    decreases |u|
  {
    if u == [] then []
    else if !v.word(u[0]) then Fields(v, u[1..])
    else [u[..Span(v, u, true)]] + Fields(v, u[Span(v, u, true)..])
  }

  function LowerAll(v: Voice, ws: seq<Text>): (r: seq<Text>)
    ensures |r| == |ws| && forall i :: 0 <= i < |ws| ==> r[i] == Lower(v, ws[i])
  {
    seq(|ws|, i requires 0 <= i < |ws| => Lower(v, ws[i]))
  }

  /** The text ends inside a word. */
  predicate Open(v: Voice, u: Text) {
    u != [] && v.word(u[|u| - 1])
  }

  /** How many words of u have ended. */
  function Whole(v: Voice, u: Text): (n: nat)
    ensures n <= |Fields(v, u)|
  {
    if Open(v, u) && Fields(v, u) != [] then |Fields(v, u)| - 1 else |Fields(v, u)|
  }

  lemma {:induction false} FieldsBehind(v: Voice, u: Text, i: nat)
    requires i <= |u| && forall k :: 0 <= k < i ==> !v.word(u[k])
    ensures Fields(v, u) == Fields(v, u[i..]) && (i < |u| ==> Open(v, u) == Open(v, u[i..]))
    ensures i == |u| ==> !Open(v, u) && Fields(v, u) == []
    decreases i
  {
    if i == 0 {
      assert u[0..] == u;
    } else {
      FieldsBehind(v, u[1..], i - 1);
      assert u[i..] == u[1..][i - 1..];
    }
  }

  /** The first word, and the rest. */
  lemma FieldsNext(v: Voice, u: Text, i: nat, j: nat)
    requires i == Span(v, u, false) < |u| && j == i + Span(v, u[i..], true)
    ensures i < j <= |u| && Fields(v, u) == [u[i..j]] + Fields(v, u[j..])
    ensures if j == |u| then Whole(v, u) == 0 && Fields(v, u) == [u[i..]] else Whole(v, u) == 1 + Whole(v, u[j..])
  {
    hide Span, Open;
    FieldsBehind(v, u, i);
    var w := u[i..];
    assert w[..j - i] == u[i..j] && w[j - i..] == u[j..];
    assert Fields(v, w) == [w[..j - i]] + Fields(v, w[j - i..]);
    OpenBehind(v, u, i, j);
    StartsClosed(v, u[j..]);
    if j == |u| {
      assert u[i..j] == u[i..] && u[j..] == [];
    }
  }

  lemma OpenBehind(v: Voice, u: Text, i: nat, j: nat)
    requires i == Span(v, u, false) < |u| && j == i + Span(v, u[i..], true)
    ensures if j == |u| then Open(v, u) else Open(v, u) == Open(v, u[j..])
  {
    hide Span;
    if j == |u| {
      assert v.word(u[i..][|u| - 1 - i]);
    } else {
      assert u[j..][|u| - 1 - j] == u[|u| - 1];
    }
  }

  lemma StartsClosed(v: Voice, u: Text)
    ensures Open(v, u) ==> Fields(v, u) != []
  {
    var i := Span(v, u, false);
    FieldsBehind(v, u, i);
  }

  /** The guard compares words: a reply repeats the message when as many words as the message has
      are ended and are the message's, in any case and whatever is between them; and may yet, when
      the words so far are, the last one as far as it goes. */
  lemma {:induction false} EchoIs(v: Voice, words: seq<Text>, u: Text)
    ensures var (ws, n) := (LowerAll(v, Fields(v, u)), Whole(v, u));
      && (Echoes(v, words, u).Repeats? <==> |words| <= n && ws[..|words|] == words)
      && (Echoes(v, words, u) == Holding <==>
            n < |words| && ws[..n] == words[..n] && (n < |ws| ==> ws[n] <= words[n]))
    decreases |words|
  {
    hide Echoes, Span, Lower, Fields, Whole;
    var i := Span(v, u, false);
    var j := i + Span(v, u[i..], true);
    if words == [] {
      EchoesNone(v, u);
    } else if i == |u| {
      EchoesBy(v, words, u, i, j);
      NoFields(v, u);
    } else {
      EchoesBy(v, words, u, i, j);
      FieldsNext(v, u, i, j);
      assert LowerAll(v, Fields(v, u)) == [Lower(v, u[i..j])] + LowerAll(v, Fields(v, u[j..]));
      if j < |u| {
        EchoIs(v, words[1..], u[j..]);
        var w, ws := Lower(v, u[i..j]), LowerAll(v, Fields(v, u[j..]));
        if Whole(v, u[j..]) < |words| {
          ConsPrefix(w, ws, words, Whole(v, u[j..]));
        }
        if |words| - 1 <= |ws| {
          ConsPrefix(w, ws, words, |words| - 1);
        }
        assert words[1..][..|words| - 1] == words[1..] && words[..|words|] == words;
      } else {
        assert u[i..j] == u[i..];
      }
    }
  }

  lemma NoFields(v: Voice, u: Text)
    requires Span(v, u, false) == |u|
    ensures Fields(v, u) == [] && Whole(v, u) == 0
  {
    FieldsBehind(v, u, |u|);
  }

  lemma ConsPrefix(w: Text, ws: seq<Text>, words: seq<Text>, n: nat)
    requires words != [] && n <= |ws| && n < |words|
    ensures ([w] + ws)[..n + 1] == words[..n + 1] <==> w == words[0] && ws[..n] == words[1..][..n]
  {
    var a, b := ([w] + ws)[..n + 1], words[..n + 1];
    assert a == [w] + ws[..n] && b == [words[0]] + words[1..][..n];
    assert a[1..] == ws[..n] && b[1..] == words[1..][..n];
  }

  /** The piece cut has the words of the message and no others. */
  lemma {:induction false} RepeatsWords(v: Voice, words: seq<Text>, u: Text)
    requires Echoes(v, words, u).Repeats?
    ensures var n := Echoes(v, words, u).n; LowerAll(v, Fields(v, u[..n])) == words
    decreases |words|
  {
    hide Echoes, Span, Lower, Fields, Whole;
    if words == [] {
      EchoesNone(v, u);
      NoFields(v, []);
    } else {
      var i := Span(v, u, false);
      var j := i + Span(v, u[i..], true);
      EchoesBy(v, words, u, i, j);
      RepeatsWords(v, words[1..], u[j..]);
      var n := Echoes(v, words, u).n;
      var w := u[..n];
      SpanOfPrefix(v, u, n, false);
      assert w[i..] == u[i..][..n - i];
      SpanOfPrefix(v, u[i..], n - i, true);
      FieldsNext(v, w, i, j);
      assert w[i..j] == u[i..j] && w[j..] == u[j..][..n - j];
      assert LowerAll(v, Fields(v, w)) == [Lower(v, u[i..j])] + LowerAll(v, Fields(v, w[j..]));
    }
  }

  // The writer.

  lemma {:induction false} KeptJoins(v: Voice, a: Text, b: Text)
    ensures Kept(v, a + b) == Kept(v, a) + Kept(v, b)
  {
    if a == [] {
      assert a + b == b;
    } else {
      assert (a + b)[1..] == a[1..] + b;
      KeptJoins(v, a[1..], b);
    }
  }

  lemma {:induction false} TrimmedJoins(v: Voice, a: Text, b: Text)
    ensures Trimmed(v, a + b) == if Trimmed(v, a) == [] then Trimmed(v, b) else Trimmed(v, a) + b
  {
    if a == [] {
      assert a + b == b;
    } else {
      assert (a + b)[1..] == a[1..] + b;
      TrimmedJoins(v, a[1..], b);
    }
  }

  lemma SayJoins(v: Voice, s: State, a: Text, b: Text)
    ensures Say(v, s, a + b) == Say(v, Say(v, s, a), b)
  {
    TrimmedJoins(v, a, b);
    KeptJoins(v, a, b);
    KeptJoins(v, Trimmed(v, a), b);
    hide Trimmed, Kept;
    var rest := if s.trim then Trimmed(v, a) else a;
    Regroup(s.said, Kept(v, rest), Kept(v, b));
    if s.trim && rest == [] {
      KeptNothing(v);
      assert s.said + [] == s.said;
    } else {
      assert rest == [] ==> rest + b == b;
      KeptNothing(v);
      assert Say(v, s, a + b).said == s.said + Kept(v, rest + b);
    }
  }

  lemma KeptNothing(v: Voice)
    ensures Kept(v, []) == []
  {
  }

  lemma Regroup(a: Text, b: Text, c: Text)
    ensures a + (b + c) == (a + b) + c
  {
  }

  /** Text without '<' is said. */
  lemma {:induction false} RunSays(v: Voice, s: State, a: Text, b: Text)
    requires Index(a, LT) == |a|
    ensures Run(v, s, a + b) == Run(v, Say(v, s, a), b)
    decreases |a|
  {
    hide MarkOf, Say;
    if a == [] {
      assert a + b == b;
      SayNothing(v, s);
    } else {
      assert (a + b)[1..] == a[1..] + b && (a + b)[0] == a[0];
      RunSays(v, Say(v, s, [a[0]]), a[1..], b);
      assert a == [a[0]] + a[1..];
      SayJoins(v, s, [a[0]], a[1..]);
    }
  }

  lemma SayNothing(v: Voice, s: State)
    ensures Say(v, s, []) == s
  {
    assert s.said + [] == s.said;
  }

  /** More is to come; the reply is over; or the loop goes round for ever. */
  datatype Written = GoesOn | Over | Loops

  class ReplyWriter {
    const v: Voice
    /** The words of the message, in lower case. */
    const words: seq<Text>
    /** The reply as it arrived. */
    var reply: Text
    /** How much of it was passed to the voice. */
    var spoken: nat
    var said: Text
    var decided: bool
    var echoed: bool
    var trimLead: bool
    var ended: bool
    var silence: Silence

    ghost predicate Valid()
      reads this
    {
      && v.Valid() && spoken <= |reply|
      && (!decided ==> spoken == 0 && said == [] && !trimLead && !echoed && (!ended ==> silence == Silence(0, [])))
    }

    ghost function Value(): State
      requires Valid()
      reads this
    {
      State(said, trimLead, reply[spoken..], ended, silence)
    }

    ghost function Guard(): Guarded
      requires Valid()
      reads this
    {
      if decided then Decided(echoed, Value()) else Undecided(Value())
    }

    constructor (v: Voice, words: seq<Text>)
      requires v.Valid()
      ensures Valid() && Guard() == Undecided(Begin(false)) && this.v == v && this.words == words
    {
      this.v, this.words := v, words;
      reply, spoken, said, trimLead, ended, silence := [], 0, [], false, false, Silence(0, []);
      decided, echoed := false, false;
    }

    /** Where a run of runes of words, or of others, ends. */
    method SpanEnd(u: Text, i: nat, word: bool) returns (j: nat)
      requires i <= |u|
      ensures j == i + Span(v, u[i..], word)
    {
      j := i;
      while j < |u| && v.word(u[j]) == word
        invariant i <= j <= |u| && forall k :: i <= k < j ==> v.word(u[k]) == word
      {
        j := j + 1;
      }
      SpanOf(v, u[i..], j - i, word);
    }

    /** Word by word, the reply against the message. */
    method FindEcho(u: Text) returns (e: Echo)
      ensures e == EchoOf(v, words, u)
    {
      if |words| < ECHO_WORDS {
        return Differs;
      }
      LongEcho(v, words, u);
      hide *;
      var i, matched := 0, 0;
      AllRemains(v, words, u);
      while matched < |words|
        invariant i <= |u| && matched <= |words|
        invariant Echoes(v, words, u) == Remaining(v, words, u, matched, i)
      {
        ghost var from := i;
        i := SpanEnd(u, i, false);
        var j := SpanEnd(u, i, true);
        NextWord(v, words, u, matched, from, i, j);
        if i == |u| {
          return Holding;
        }
        if j == |u| {
          return if Lower(v, u[i..]) <= words[matched] then Holding else Differs;
        }
        if Lower(v, u[i..j]) != words[matched] {
          return Differs;
        }
        matched, i := matched + 1, j;
      }
      NoneRemains(v, words, u, i);
      return Repeats(i);
    }

    /** The next n of the reply are voiced, or kept back while a repetition is possible and the reply
        goes on. */
    method Speak(n: nat, flush: bool)
      requires Valid() && !ended && spoken + n <= |reply|
      modifies this`spoken, this`said, this`decided, this`echoed, this`trimLead
      ensures Valid() && (n == 0 ==> Guard() == old(Guard()))
      ensures n > 0 && old(decided) ==> decided && spoken == old(spoken) + n && Guard() == Decided(old(echoed),
        Say(v, old(Value()), old(reply[spoken..spoken + n])).(held := reply[spoken..]))
      ensures n > 0 && !old(decided) ==>
        if EchoOf(v, words, reply[..n]) == Holding && !flush then Guard() == old(Guard())
        else spoken == n && Guard() == Decided(EchoOf(v, words, reply[..n]).Repeats?,
          Opened(v, words, old(Value()), reply, n).(held := reply[n..]))
    {
      hide Say, EchoOf;
      if n == 0 {
        return;
      }
      var m := n;
      ghost var s := Value();
      if !decided {
        var e := FindEcho(reply[..n]);
        if e == Holding && !flush {
          return;
        }
        decided := true;
        if e.Repeats? {
          echoed, trimLead, spoken, m := true, true, e.n, n - e.n;
        }
        assert reply[..n] == reply[0..n];
      }
      SayHeld(v, s.(trim := trimLead), reply[spoken..], reply[spoken..spoken + m]);
      Voiced(m);
    }

    method Voiced(n: nat)
      requires Valid() && decided && spoken + n <= |reply|
      modifies this`spoken, this`said, this`trimLead
      ensures Valid() && spoken == old(spoken) + n
      ensures Value() == Say(v, old(Value()), old(reply[spoken..spoken + n])).(held := reply[spoken..])
    {
      var src := reply[spoken..spoken + n];
      if trimLead {
        var rest := Trimmed(v, src);
        TrimmedShorter(v, src);
        spoken := spoken + (|src| - |rest|);
        src := rest;
        if |src| == 0 {
          assert said + Kept(v, []) == said;
          return;
        }
        trimLead := false;
      }
      said := said + Kept(v, src);
      spoken := spoken + |src|;
    }

    lemma TrimmedShorter(v: Voice, s: Text)
      ensures |Trimmed(v, s)| <= |s|
    {
    }

    /** What the loop makes of the text not yet spoken. */
    ghost function Coming(): Guarded
      requires Valid()
      reads this
    {
      if decided then Decided(echoed, Run(v, Value(), reply[spoken..])) else Arrive(v, words, reply)
    }

    /** One round of the loop: it speaks up to the next '<', and then on, unless the reply ends
        there or its decision has to wait. more says that there is a next round; when the guard is
        still undecided, nothing changed and the next does the same. */
    method Advance() returns (more: bool)
      requires Valid() && !ended
      modifies this`spoken, this`said, this`decided, this`echoed, this`trimLead, this`ended, this`silence
      ensures Valid() && spoken >= old(spoken) && (old(decided) ==> decided)
      ensures !more ==> Guard() == old(Coming())
      ensures more && decided ==> !ended && Coming() == old(Coming()) && (old(decided) ==> spoken > old(spoken))
      ensures more && !decided ==> Guard() == old(Guard()) && old(Coming()) == Forever
    {
      hide Run, Arrive;
      var none := SpeakWords();
      if none {
        return false;
      }
      more := AtMark();
    }

    /** What comes before the next '<' is spoken. */
    method SpeakWords() returns (none: bool)
      requires Valid() && !ended
      modifies this`spoken, this`said, this`decided, this`echoed, this`trimLead
      ensures Valid() && spoken >= old(spoken) && (old(decided) ==> decided)
      ensures none ==> Guard() == old(Coming())
      ensures !none ==> spoken < |reply| && Coming() == old(Coming())
      ensures !none && decided ==> reply[spoken] == LT
      ensures !none && !decided ==> Guard() == old(Guard()) && var lt := Index(reply, LT);
        lt < |reply| && (lt == 0 || EchoOf(v, words, reply[..lt]) == Holding)
    {
      hide Run, Say, EchoOf, Index, MarkOf;
      ghost var s := Value();
      var u := reply[spoken..];
      var lt := Index(u, LT);
      assert u[..lt] == reply[spoken..spoken + lt] && u[lt..] == reply[spoken + lt..];
      IndexOfPrefix(u, lt, LT);
      Speak(lt, false);
      if old(decided) {
        if lt > 0 {
          SpokenTo(v, s, u, lt, Value());
        }
      } else if lt > 0 && EchoOf(v, words, u[..lt]) != Holding {
        assert u == reply;
        OpenedTo(v, words, u, lt, Value());
      }
      none := lt == |u|;
      if none && decided {
        RunNothing(v, Value());
      }
    }

    /** A '<' is next, or the guard holds what comes before it. */
    method AtMark() returns (more: bool)
      requires Valid() && !ended && spoken < |reply| && (decided ==> reply[spoken] == LT)
      requires !decided ==> var lt := Index(reply, LT);
        lt < |reply| && (lt == 0 || EchoOf(v, words, reply[..lt]) == Holding)
      modifies this`spoken, this`said, this`decided, this`echoed, this`trimLead, this`ended, this`silence
      ensures Valid() && spoken >= old(spoken) && (old(decided) ==> decided)
      ensures !more ==> Guard() == old(Coming())
      ensures more && decided ==> !ended && Coming() == old(Coming()) && (old(decided) ==> spoken > old(spoken))
      ensures more && !decided ==> Guard() == old(Guard()) && old(Coming()) == Forever
    {
      hide Run, Say, MarkOf, EchoOf, Index, Arrive;
      ghost var s, u := Value(), reply[spoken..];
      if u[0] == LT {
        StepRun(v, s, u);
      }
      if !decided {
        FirstRune(v, words, u);
        ArriveMark(v, words, u);
        SameRun(v, s, Begin(false), u);
      }
      match MarkOf(v, reply[spoken..])
      case Maybe =>
        return false;
      case Words =>
        assert reply[spoken..spoken + 1] == [u[0]];
        Speak(1, false);
        if decided {
          SameRun(v, Say(v, s, [LT]), Value(), u[1..]);
        }
        return true;
      case Marker(silent) =>
        ended, silence := true, silent;
        return false;
    }

    /** A piece arrives; a marker ends the reply. */
    method Write(p: Text) returns (r: Written)
      requires Valid()
      modifies this
      ensures Valid() && (r == Over <==> ended && !old(ended))
      ensures r == Loops <==> !old(ended) && !old(decided) && Stuck(v, words, old(reply) + p)
      ensures r != Loops ==> Guard() == GuardedPiece(v, words, old(Guard()), p)
    {
      if ended {
        return GoesOn;
      }
      hide Run, Arrive;
      ghost var want := GuardedPiece(v, words, Guard(), p);
      ghost var before := Value();
      assert reply[0..] == reply;
      StuckIff(before, p);
      reply := reply + p;
      assert reply[spoken..] == before.held + p;
      SameRun(v, before, Value(), reply[spoken..]);
      var more := true;
      while more
        invariant Valid() && (more ==> !ended && Coming() == want)
        invariant !more ==> Guard() == want
        decreases more, !decided, |reply| - spoken
      {
        more := Advance();
        if more && !decided {
          return Loops;
        }
      }
      return if ended then Over else GoesOn;
    }

    lemma StuckIff(before: State, p: Text)
      requires Valid() && (!decided ==> before.held == reply)
      ensures GuardedPiece(v, words, if decided then Decided(echoed, before) else Undecided(before), p) == Forever <==>
        !decided && !before.ended && Stuck(v, words, reply + p)
    {
    }

    /** The reply is written. */
    method Flush()
      requires Valid()
      modifies this
      ensures Valid() && Guard() == GuardedFlush(v, words, old(Guard()))
    {
      if ended {
        return;
      }
      hide Say, EchoOf, Opened, GuardedFlush;
      FlushStep(v, words, Guard());
      var unsent := reply[spoken..];
      if |unsent| >= |SILENT| && unsent[..|SILENT|] == SILENT {
        assert SILENT <= unsent;
        ended := true;
        return;
      }
      assert unsent == reply[spoken..spoken + |unsent|];
      Speak(|unsent|, true);
      assert reply[spoken..] == [];
    }
  }

  lemma SayHeld(v: Voice, s: State, held: Text, t: Text)
    ensures Say(v, s.(held := held), t) == Say(v, s, t).(held := held)
  {
  }

  lemma FlushStep(v: Voice, words: seq<Text>, g: Guarded)
    requires g != Forever && !g.s.ended && (g.Undecided? ==> g.s == Begin(false).(held := g.s.held))
    ensures GuardedFlush(v, words, g) ==
      if g.s.held == [] then g
      else if SILENT <= g.s.held then g.(s := g.s.(ended := true))
      else if g.Decided? then g.(s := Say(v, g.s, g.s.held).(held := []))
      else Decided(EchoOf(v, words, g.s.held).Repeats?, Opened(v, words, g.s, g.s.held, |g.s.held|).(held := []))
  {
    hide EchoOf;
    SayNothing(v, g.s);
    assert g.s.held[..|g.s.held|] == g.s.held;
    match EchoOf(v, words, g.s.held)
    case Repeats(k) => assert g.s.held[k..] == g.s.held[k..|g.s.held|];
    case _ =>
  }

  /** The words from m on against the text from i on. */
  function Remaining(v: Voice, words: seq<Text>, u: Text, m: nat, i: nat): Echo
    requires m <= |words| && i <= |u|
  {
    Behind(i, Echoes(v, words[m..], u[i..]))
  }

  /** The guard is off when the message has fewer words than three. */
  lemma FewWords(v: Voice, words: seq<Text>, u: Text)
    ensures |words| < 3 ==> EchoOf(v, words, u) == Differs
    ensures |words| >= 3 ==> EchoOf(v, words, u) == Echoes(v, words, u)
  {
  }

  lemma LongEcho(v: Voice, words: seq<Text>, u: Text)
    requires |words| >= ECHO_WORDS
    ensures EchoOf(v, words, u) == Echoes(v, words, u)
  {
  }

  lemma AllRemains(v: Voice, words: seq<Text>, u: Text)
    ensures Remaining(v, words, u, 0, 0) == Echoes(v, words, u)
  {
    hide Echoes;
    assert words[0..] == words && u[0..] == u;
  }

  lemma NoneRemains(v: Voice, words: seq<Text>, u: Text, i: nat)
    requires i <= |u|
    ensures Remaining(v, words, u, |words|, i) == Repeats(i)
  {
    assert words[|words|..] == [];
  }

  lemma BehindTwice(i: nat, j: nat, e: Echo)
    ensures Behind(i, Behind(j, e)) == Behind(i + j, e)
  {
  }

  lemma NextWord(v: Voice, words: seq<Text>, u: Text, m: nat, from: nat, i: nat, j: nat)
    requires m < |words| && from <= |u|
    requires i == from + Span(v, u[from..], false) && j == i + Span(v, u[i..], true)
    ensures Remaining(v, words, u, m, from) ==
      if i == |u| then Holding
      else if j == |u| then if Lower(v, u[i..]) <= words[m] then Holding else Differs
      else if Lower(v, u[i..j]) != words[m] then Differs
      else Remaining(v, words, u, m + 1, j)
  {
    hide Echoes, Span, Lower;
    var rest := u[from..];
    assert rest[i - from..] == u[i..] && rest[i - from..j - from] == u[i..j] && rest[j - from..] == u[j..];
    assert words[m..][1..] == words[m + 1..] && words[m..][0] == words[m];
    EchoesBy(v, words[m..], rest, i - from, j - from);
    BehindTwice(from, j - from, Echoes(v, words[m + 1..], u[j..]));
  }

  /** The one rune that the loop goes on with when the guard holds, or at a '<' of no marker. */
  lemma FirstRune(v: Voice, words: seq<Text>, u: Text)
    requires v.Valid() && u != []
    requires var lt := Index(u, LT); lt == 0 || EchoOf(v, words, u[..lt]) == Holding
    ensures EchoOf(v, words, [u[0]]) == if u[0] == LT && |words| < ECHO_WORDS then Differs else Holding
  {
    hide Echoes;
    var lt := Index(u, LT);
    if lt == 0 {
      if |words| >= ECHO_WORDS {
        SpanOf(v, [LT], 1, false);
        EchoesBy(v, words, [LT], 1, 1);
      }
    } else {
      assert [u[0]] == u[..lt][..1];
      HoldingBefore(v, words, u[..lt], 1);
    }
  }

  lemma ArriveMark(v: Voice, words: seq<Text>, u: Text)
    requires u != [] && var lt := Index(u, LT); lt == 0 || (lt < |u| && EchoOf(v, words, u[..lt]) == Holding)
    ensures if u[0] != LT then MarkOf(v, u) == Words && Arrive(v, words, u) == Forever else
      Arrive(v, words, u) == match MarkOf(v, u)
        case Maybe => Undecided(Begin(false).(held := u))
        case Words => if |words| < ECHO_WORDS then Decided(false, Run(v, Begin(false), u)) else Forever
        case Marker(silence) => Undecided(Begin(false).(held := u, ended := true, silence := silence))
  {
    hide EchoOf, Run;
  }

  lemma IndexInside(u: Text, k: nat, lt: nat)
    requires k <= lt <= Index(u, LT)
    ensures Index(u[k..][..lt - k], LT) == lt - k
  {
    IndexAtLeast(u[k..][..lt - k], lt - k, LT);
  }

  /** What came before the first '<' decided the guard, and was said without a repetition. */
  lemma OpenedTo(v: Voice, words: seq<Text>, u: Text, lt: nat, t: State)
    requires lt == Index(u, LT) > 0 && EchoOf(v, words, u[..lt]) != Holding
    requires t == Opened(v, words, Begin(false).(held := u), u, lt).(held := t.held)
    ensures Arrive(v, words, u) == Decided(EchoOf(v, words, u[..lt]).Repeats?, Run(v, t, u[lt..]))
  {
    hide Run, Say, EchoOf, MarkOf;
    var s := Begin(false).(held := u);
    match EchoOf(v, words, u[..lt])
    case Repeats(k) =>
      assert u[k..][..lt - k] == u[k..lt] && u[k..][lt - k..] == u[lt..];
      IndexInside(u, k, lt);
      SpokenTo(v, s.(trim := true), u[k..], lt - k, t);
      SameRun(v, s.(trim := true), Begin(true), u[k..]);
    case _ =>
      IndexOfPrefix(u, lt, LT);
      SpokenTo(v, s, u, lt, t);
      SameRun(v, s, Begin(false), u);
  }

  /** Text up to a '<' was said. */
  lemma SpokenTo(v: Voice, s: State, u: Text, lt: nat, t: State)
    requires lt <= |u| && Index(u[..lt], LT) == lt && t == Say(v, s, u[..lt]).(held := t.held)
    ensures Run(v, s, u) == Run(v, t, u[lt..])
  {
    hide Say, Run, Index;
    assert u == u[..lt] + u[lt..];
    RunSays(v, s, u[..lt], u[lt..]);
    SameRun(v, Say(v, s, u[..lt]), t, u[lt..]);
  }

  lemma SameRun(v: Voice, s: State, t: State, u: Text)
    requires s.(held := t.held) == t
    ensures Run(v, s, u) == Run(v, t, u)
  {
    RunHeld(v, s, t.held, u);
  }

  lemma RunNothing(v: Voice, s: State)
    ensures Run(v, s, []) == s.(held := [])
  {
  }

  lemma StepRun(v: Voice, s: State, u: Text)
    requires u != [] && u[0] == LT
    ensures Run(v, s, u) == match MarkOf(v, u)
      case Maybe => s.(held := u)
      case Words => Run(v, Say(v, s, [LT]), u[1..])
      case Marker(silence) => s.(held := u, ended := true, silence := silence)
  {
  }
}
