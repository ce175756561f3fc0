// The model pool of pool.go as a state machine: one step per critical section, and any
// number of clients, each a goroutine inside Acquire, Release, Close or a timer.

module Pool {
  import opened Wrappers

  type Client = nat
  type ModelId = nat
  type Lane = nat
  type Path = nat
  type Kind = nat // a lane type

  /** Where a client is. */
  datatype PC =
    | Away
    | Seeking(path: Path, kind: Kind)                      // at the top of Acquire's loop
    | Opening(m: ModelId, kind: Kind)                      // in get, Open running
    | Opened(m: ModelId, kind: Kind, ok: bool)             // Open returned, not yet checked
    | Checked(m: ModelId, kind: Kind, ok: bool, held: bool) // before close(m.ready)
    | Waiting(m: ModelId, kind: Kind)                      // for m.ready, then for the lock
    | Making(m: ModelId, kind: Kind)                       // counted, its lane being made
    | Leasing(m: ModelId, kind: Kind, lane: Lane)
    | Dropping(ms: set<ModelId>)                           // about to close these models

  /** One pooled model. opener, dropper, armed and orphaned record history: who opens it,
      who has taken it to close it, whether its timer was ever set, and whether Close found
      it between its check and its announcement. */
  datatype Entry = Entry(path: Path, ready: bool, loaded: bool, failed: bool, busy: nat,
    idle: map<Kind, seq<Lane>>, closes: nat,
    opener: Client, dropper: set<Client>, armed: bool, gap: bool, orphaned: bool)

  /** Where a lane made so far is. */
  datatype Place = Idle(m: ModelId, kind: Kind) | Out(c: Client) | Gone

  /** made records for which model and kind each lane was made. */
  datatype State = State(closed: bool, models: map<Path, ModelId>, entries: seq<Entry>,
    clients: map<Client, PC>, lanes: seq<Place>, made: seq<(ModelId, Kind)>)
  {
    function At(c: Client): PC {
      if c in clients then clients[c] else Away
    }

    predicate Pooled(m: ModelId)
      requires m < |entries|
    {
      entries[m].path in models && models[entries[m].path] == m
    }

    function Move(c: Client, pc: PC): State {
      this.(clients := clients[c := pc])
    }

    function With(m: ModelId, e: Entry): State
      requires m < |entries|
    {
      this.(entries := entries[m := e])
    }
  }

  const Empty := State(false, map[], [], map[], [], [])

  predicate Holds(pc: PC, m: ModelId) {
    (pc.Making? || pc.Leasing?) && pc.m == m
  }

  predicate Opens(pc: PC, m: ModelId) {
    (pc.Opening? || pc.Opened? || pc.Checked?) && pc.m == m
  }

  datatype Action =
    | Acquire(path: Path, kind: Kind)
    | Get
    | Open(ok: bool)
    | Check
    | Publish
    | Lock
    | Make(ok: bool)
    | Release
    | Expire(m: ModelId, stale: bool)
    | Close
    | Drop(m: ModelId)

  function IdleOf(e: Entry, kind: Kind): seq<Lane> {
    if kind in e.idle then e.idle[kind] else []
  }

  /** release(m, kind, nil), after the lane is returned if there is one. */
  function Returned(s: State, c: Client, m: ModelId): (t: State)
    requires m < |s.entries| && s.entries[m].busy > 0
    ensures |t.entries| == |s.entries| && t.entries[m].orphaned == s.entries[m].orphaned
    ensures t.entries == s.entries[m := t.entries[m]]
  {
    var e := s.entries[m].(busy := s.entries[m].busy - 1);
    var mine := e.busy == 0 && (s.closed || !s.Pooled(m));
    s.With(m, if mine then e.(dropper := {c}) else if e.busy == 0 then e.(armed := true) else e)
    .Move(c, if mine then Dropping({m}) else Away)
  }

  /** The lane joins those idle. */
  function Filed(s: State, m: ModelId, kind: Kind, lane: Lane): (t: State)
    requires m < |s.entries| && lane < |s.lanes|
    ensures |t.entries| == |s.entries| && t.entries[m].busy == s.entries[m].busy
  {
    var e := s.entries[m];
    s.(lanes := s.lanes[lane := Idle(m, kind)]).With(m, e.(idle := e.idle[kind := IdleOf(e, kind) + [lane]]))
  }

  predicate Closable(e: Entry) {
    e.ready && e.busy == 0
  }

  /** The models Close takes to close at once. */
  function Unused(s: State): set<ModelId>
  {
    set p | p in s.models && s.models[p] < |s.entries| && Closable(s.entries[s.models[p]]) :: s.models[p]
  }

  /** What Close does to an entry of the pool. */
  function Removed(s: State, c: Client, m: ModelId): Entry
    requires m < |s.entries|
  {
    var e := s.entries[m];
    if !s.Pooled(m) then e
    else e.(orphaned := e.orphaned || e.gap, dropper := if Closable(e) then {c} else e.dropper)
  }

  /** The effect of client c's step, or nothing when it cannot take it. */
  function Do(s: State, c: Client, a: Action): State {
    var pc := s.At(c);
    match a
    case Acquire(path, kind) => if pc.Away? then s.Move(c, Seeking(path, kind)) else s
    case Get =>
      if !pc.Seeking? then s
      else if s.closed then s.Move(c, Away)
      else if pc.path in s.models then s.Move(c, Waiting(s.models[pc.path], pc.kind))
      else
        var m := |s.entries|;
        s.(models := s.models[pc.path := m],
           entries := s.entries + [Entry(pc.path, false, false, false, 0, map[], 0, c, {}, false, false, false)])
        .Move(c, Opening(m, pc.kind))
    case Open(ok) =>
      if !pc.Opening? || pc.m >= |s.entries| then s
      else s.With(pc.m, s.entries[pc.m].(loaded := ok)).Move(c, Opened(pc.m, pc.kind, ok))
    case Check =>
      if !pc.Opened? || pc.m >= |s.entries| then s
      else
        var held := s.Pooled(pc.m);
        var t := if !pc.ok && held then s.(models := s.models - {s.entries[pc.m].path}) else s;
        t.With(pc.m, s.entries[pc.m].(gap := pc.ok && held)).Move(c, Checked(pc.m, pc.kind, pc.ok, held))
    case Publish =>
      if !pc.Checked? || pc.m >= |s.entries| then s
      else
        var e := s.entries[pc.m];
        var closes := if pc.ok && !pc.held then e.closes + 1 else e.closes;
        s.With(pc.m, e.(closes := closes, failed := !(pc.ok && pc.held), ready := true, gap := false))
        .Move(c, Waiting(pc.m, pc.kind))
    case Lock =>
      if !pc.Waiting? || pc.m >= |s.entries| || !s.entries[pc.m].ready then s
      else
        var e := s.entries[pc.m];
        if e.failed then s.Move(c, Away)
        else if !s.Pooled(pc.m) then s.Move(c, Seeking(e.path, pc.kind))
        else
          var lanes := IdleOf(e, pc.kind);
          if lanes != [] && lanes[|lanes| - 1] < |s.lanes| then
            var lane := lanes[|lanes| - 1];
            s.(lanes := s.lanes[lane := Out(c)])
            .With(pc.m, e.(busy := e.busy + 1, idle := e.idle[pc.kind := lanes[..|lanes| - 1]]))
            .Move(c, Leasing(pc.m, pc.kind, lane))
          else
            s.With(pc.m, e.(busy := e.busy + 1)).Move(c, Making(pc.m, pc.kind))
    case Make(ok) =>
      if !pc.Making? || pc.m >= |s.entries| || s.entries[pc.m].busy == 0 then s
      else if ok then
        s.(lanes := s.lanes + [Out(c)], made := s.made + [(pc.m, pc.kind)])
        .Move(c, Leasing(pc.m, pc.kind, |s.lanes|))
      else
        Returned(s, c, pc.m)
    case Release =>
      if !pc.Leasing? || pc.m >= |s.entries| || s.entries[pc.m].busy == 0 || pc.lane >= |s.lanes| then s
      else
        Returned(Filed(s, pc.m, pc.kind, pc.lane), c, pc.m)
    case Expire(m, stale) =>
      if !pc.Away? || m >= |s.entries| || !s.entries[m].armed then s
      else if s.entries[m].busy > 0 || !s.Pooled(m) || !stale then s
      else
        s.(models := s.models - {s.entries[m].path})
        .With(m, s.entries[m].(dropper := {c})).Move(c, Dropping({m}))
    case Close =>
      if !pc.Away? || s.closed then s
      else
        State(true, map[], seq(|s.entries|, m requires 0 <= m < |s.entries| => Removed(s, c, m)),
              s.clients[c := Dropping(Unused(s))], s.lanes, s.made)
    case Drop(m) =>
      if !pc.Dropping? then s
      else if pc.ms == {} then s.Move(c, Away)
      else if m !in pc.ms || m >= |s.entries| then s
      else
        var e := s.entries[m];
        State(s.closed, s.models, s.entries[m := e.(closes := e.closes + 1, idle := map[], dropper := {})],
              s.clients[c := Dropping(pc.ms - {m})],
              seq(|s.lanes|, l requires 0 <= l < |s.lanes| =>
                if s.lanes[l].Idle? && s.lanes[l].m == m then Gone else s.lanes[l]),
              s.made)
  }

  // What every reachable state satisfies.

  ghost function Holders(s: State, m: ModelId): set<Client> {
    set c | c in s.clients && Holds(s.clients[c], m)
  }

  /** The life of a model, by what remains to be done with it. */
  ghost predicate EntryOk(s: State, m: ModelId)
    requires m < |s.entries|
  {
    var e := s.entries[m];
    && e.busy == |Holders(s, m)|
    && (e.armed ==> e.ready && !e.failed)
    && (e.gap ==> !e.ready)
    && (!e.ready ==>
          && Opens(s.At(e.opener), m) && e.busy == 0 && e.closes == 0 && e.dropper == {} && e.idle == map[] && !e.failed
          && (s.At(e.opener).Checked? && s.Pooled(m) ==> s.At(e.opener).ok && s.At(e.opener).held)
          && (e.orphaned ==> !s.Pooled(m) && s.At(e.opener).Checked? && e.gap)
          && (e.gap ==> s.Pooled(m) || e.orphaned))
    && (e.ready && e.failed ==>
          e.closes == (if e.loaded then 1 else 0) && !s.Pooled(m) && e.busy == 0 && e.dropper == {} && !e.orphaned &&
            e.idle == map[])
    && (e.ready && !e.failed ==> e.loaded)
    && (e.ready && !e.failed && e.orphaned ==> e.closes == 0 && !s.Pooled(m) && e.busy == 0 && e.dropper == {})
    && (e.ready && !e.failed && !e.orphaned ==>
          if s.Pooled(m) || e.busy > 0 then e.closes == 0 && e.dropper == {}
          else if e.dropper == {} then e.closes == 1 && e.idle == map[]
          else e.closes == 0)
    && (forall c :: c in e.dropper ==> s.At(c).Dropping? && m in s.At(c).ms && e.dropper == {c})
  }

  ghost predicate ClientOk(s: State, c: Client) {
    match s.At(c)
    case Away => true
    case Seeking(_, _) => true
    case Opening(m, _) =>
      m < |s.entries| && !s.entries[m].ready && s.entries[m].opener == c && !s.entries[m].loaded && !s.entries[m].gap
    case Opened(m, _, ok) =>
      m < |s.entries| && !s.entries[m].ready && s.entries[m].opener == c && s.entries[m].loaded == ok &&
      !s.entries[m].gap
    case Checked(m, _, ok, held) =>
      m < |s.entries| && !s.entries[m].ready && s.entries[m].opener == c && s.entries[m].loaded == ok &&
        s.entries[m].gap == (ok && held)
    case Waiting(m, _) => m < |s.entries|
    case Making(m, _) => m < |s.entries|
    case Leasing(m, _, lane) => m < |s.entries| && lane < |s.lanes| && s.lanes[lane] == Out(c)
    case Dropping(ms) => forall m :: m in ms ==> m < |s.entries| && s.entries[m].dropper == {c}
  }

  ghost predicate LanesOk(s: State, m: ModelId)
    requires m < |s.entries|
  {
    forall k :: k in s.entries[m].idle ==> IdleListOk(s, m, k, s.entries[m].idle[k])
  }

  ghost predicate IdleListOk(s: State, m: ModelId, k: Kind, l: seq<Lane>) {
    && (forall i :: 0 <= i < |l| ==> l[i] < |s.lanes| && s.lanes[l[i]] == Idle(m, k))
    && (forall i, j :: 0 <= i < j < |l| ==> l[i] != l[j])
  }

  ghost predicate ModelsOk(s: State) {
    && (forall p :: p in s.models ==> s.models[p] < |s.entries| && s.entries[s.models[p]].path == p)
    && (s.closed ==> s.models == map[])
  }

  ghost predicate Inv(s: State) {
    && ModelsOk(s)
    && (forall c :: ClientOk(s, c))
    && (forall m :: 0 <= m < |s.entries| ==> EntryOk(s, m) && LanesOk(s, m))
  }

  lemma HoldersOf(s: State, t: State, c: Client, pc: PC, m: ModelId)
    requires t.clients == s.clients[c := pc]
    ensures Holds(pc, m) == Holds(s.At(c), m) ==> |Holders(t, m)| == |Holders(s, m)|
    ensures Holds(pc, m) && !Holds(s.At(c), m) ==> |Holders(t, m)| == |Holders(s, m)| + 1
    ensures !Holds(pc, m) && Holds(s.At(c), m) ==> |Holders(t, m)| == |Holders(s, m)| - 1
  {
    var a, b := Holders(s, m), Holders(t, m);
    assert forall d :: d != c ==> (d in a <==> d in b);
    assert b == if Holds(pc, m) then a + {c} else a - {c};
    assert c in a <==> Holds(s.At(c), m);
  }

  /** An entry that c's step leaves alone stays as it was. */
  lemma EntryFramed(s: State, t: State, c: Client, pc: PC, m: ModelId)
    requires m < |s.entries| && m < |t.entries| && EntryOk(s, m) && t.entries[m] == s.entries[m]
    requires t.clients == s.clients[c := pc] && t.Pooled(m) == s.Pooled(m)
    requires Holds(pc, m) == Holds(s.At(c), m)
    requires !s.entries[m].ready ==> s.entries[m].opener != c
    requires c !in s.entries[m].dropper
    ensures EntryOk(t, m)
  {
    HoldersOf(s, t, c, pc, m);
  }

  /** A client in no one's way: it neither opens, holds nor closes a model. */
  predicate Plain(s: State, pc: PC) {
    pc.Away? || pc.Seeking? || (pc.Waiting? && pc.m < |s.entries|) || pc == Dropping({})
  }

  lemma MoveKeeps(s: State, c: Client, pc: PC)
    requires Inv(s) && Plain(s, s.At(c)) && Plain(s, pc)
    ensures Inv(s.Move(c, pc))
  {
    hide Holders;
    var t := s.Move(c, pc);
    assert ClientOk(s, c);
    forall m | 0 <= m < |t.entries| ensures EntryOk(t, m) && LanesOk(t, m) {
      assert EntryOk(s, m) && LanesOk(s, m);
      EntryFramed(s, t, c, pc, m);
    }
    forall d: Client ensures ClientOk(t, d) {
      assert ClientOk(s, d);
    }
  }

  lemma AcquireKeeps(s: State, c: Client, path: Path, kind: Kind)
    requires Inv(s)
    ensures Inv(Do(s, c, Acquire(path, kind)))
  {
    hide Inv;
    if s.At(c).Away? {
      MoveKeeps(s, c, Seeking(path, kind));
    }
  }

  lemma GetKeeps(s: State, c: Client)
    requires Inv(s)
    ensures Inv(Do(s, c, Get))
  {
    var t, pc := Do(s, c, Get), s.At(c);
    if pc.Seeking? && (s.closed || pc.path in s.models) {
      MoveKeeps(s, c, t.At(c));
    } else if pc.Seeking? {
      hide Holders, LanesOk;
      forall m | 0 <= m < |t.entries| ensures EntryOk(t, m) && LanesOk(t, m) {
        if m < |s.entries| {
          assert EntryOk(s, m);
          EntryFramed(s, t, c, t.At(c), m);
          LanesFramed(s, t, m);
        } else {
          NoHolders(s, m);
          HoldersOf(s, t, c, t.At(c), m);
          NoLanes(t, m);
        }
      }
      forall d: Client ensures ClientOk(t, d) {
        assert ClientOk(s, d);
      }
    }
  }

  lemma NoLanes(t: State, m: ModelId)
    requires m < |t.entries| && t.entries[m].idle == map[]
    ensures LanesOk(t, m)
  {
  }

  lemma NoHolders(s: State, m: ModelId)
    requires Inv(s) && m >= |s.entries|
    ensures Holders(s, m) == {}
  {
    forall c | c in s.clients ensures !Holds(s.clients[c], m) {
      assert ClientOk(s, c);
    }
  }

  lemma OpenKeeps(s: State, c: Client, ok: bool)
    requires Inv(s)
    ensures Inv(Do(s, c, Open(ok)))
  {
    var t := Do(s, c, Open(ok));
    if t != s {
      hide Holders, LanesOk;
      assert ClientOk(s, c);
      forall m | 0 <= m < |t.entries| ensures EntryOk(t, m) && LanesOk(t, m) {
        assert EntryOk(s, m);
        LanesFramed(s, t, m);
        if m != t.At(c).m {
          EntryFramed(s, t, c, t.At(c), m);
        } else {
          HoldersOf(s, t, c, t.At(c), m);
        }
      }
      forall d: Client ensures ClientOk(t, d) {
        assert ClientOk(s, d);
      }
    }
  }

  lemma CheckKeeps(s: State, c: Client)
    requires Inv(s)
    ensures Inv(Do(s, c, Check))
  {
    var t := Do(s, c, Check);
    if t != s {
      hide Holders, LanesOk;
      assert ClientOk(s, c);
      forall m | 0 <= m < |t.entries| ensures EntryOk(t, m) && LanesOk(t, m) {
        assert EntryOk(s, m);
        LanesFramed(s, t, m);
        if m != t.At(c).m {
          EntryFramed(s, t, c, t.At(c), m);
        } else {
          HoldersOf(s, t, c, t.At(c), m);
        }
      }
      forall d: Client ensures ClientOk(t, d) {
        assert ClientOk(s, d);
      }
    }
  }

  lemma PublishKeeps(s: State, c: Client)
    requires Inv(s)
    ensures Inv(Do(s, c, Publish))
  {
    var t := Do(s, c, Publish);
    if t != s {
      hide Holders, LanesOk;
      assert ClientOk(s, c);
      forall m | 0 <= m < |t.entries| ensures EntryOk(t, m) && LanesOk(t, m) {
        assert EntryOk(s, m);
        LanesFramed(s, t, m);
        if m != t.At(c).m {
          EntryFramed(s, t, c, t.At(c), m);
        } else {
          HoldersOf(s, t, c, t.At(c), m);
        }
      }
      forall d: Client ensures ClientOk(t, d) {
        assert ClientOk(s, d);
      }
    }
  }

  lemma LockKeeps(s: State, c: Client)
    requires Inv(s)
    ensures Inv(Do(s, c, Lock))
  {
    var t := Do(s, c, Lock);
    if t != s && Plain(t, t.At(c)) {
      MoveKeeps(s, c, t.At(c));
    } else if t != s {
      hide Holders, LanesOk, EntryOk, ClientOk;
      LockEntries(s, c);
      LockLanes(s, c);
      LockClients(s, c);
    }
  }

  lemma LockLanes(s: State, c: Client)
    requires Inv(s) && s.At(c).Waiting? && Holds(Do(s, c, Lock).At(c), s.At(c).m)
    ensures forall m :: 0 <= m < |s.entries| ==> LanesOk(Do(s, c, Lock), m)
  {
    hide Holders, LanesOk, EntryOk;
    var t, m0 := Do(s, c, Lock), s.At(c).m;
    assert ClientOk(s, c) && LanesOk(s, m0);
    forall m | 0 <= m < |t.entries| ensures LanesOk(t, m) {
      if t.At(c).Leasing? {
        LanesPopped(s, t, m0, s.At(c).kind, m);
      } else {
        LanesFramed(s, t, m);
      }
    }
  }

  lemma LockClients(s: State, c: Client)
    requires Inv(s) && s.At(c).Waiting? && Holds(Do(s, c, Lock).At(c), s.At(c).m)
    ensures forall d :: ClientOk(Do(s, c, Lock), d)
  {
    hide Holders, LanesOk, EntryOk;
    assert ClientOk(s, c) && LanesOk(s, s.At(c).m);
    LastIdle(s, s.At(c).m, s.At(c).kind);
    forall d: Client ensures ClientOk(Do(s, c, Lock), d) {
      assert ClientOk(s, d);
    }
  }

  lemma LastIdle(s: State, m: ModelId, kind: Kind)
    requires m < |s.entries| && LanesOk(s, m)
    ensures var l := IdleOf(s.entries[m], kind);
      l != [] ==> l[|l| - 1] < |s.lanes| && s.lanes[l[|l| - 1]] == Idle(m, kind)
  {
    var l := IdleOf(s.entries[m], kind);
    if l != [] {
      assert IdleListOk(s, m, kind, l);
    }
  }

  lemma LockEntries(s: State, c: Client)
    requires Inv(s) && s.At(c).Waiting? && Holds(Do(s, c, Lock).At(c), s.At(c).m)
    ensures forall m :: 0 <= m < |s.entries| ==> EntryOk(Do(s, c, Lock), m)
  {
    hide Holders, LanesOk;
    var t, m0 := Do(s, c, Lock), s.At(c).m;
    assert ClientOk(s, c) && EntryOk(s, m0);
    forall m | 0 <= m < |t.entries| ensures EntryOk(t, m) {
      assert EntryOk(s, m);
      if m != m0 {
        EntryFramed(s, t, c, t.At(c), m);
      } else {
        HoldersOf(s, t, c, t.At(c), m);
      }
    }
  }

  /** Taking the last idle lane of a kind leaves every other lane where it was. */
  lemma LanesPopped(s: State, t: State, m0: ModelId, kind: Kind, m: ModelId)
    requires m0 < |s.entries| == |t.entries| && m < |s.entries| && LanesOk(s, m0) && LanesOk(s, m)
    requires var l := IdleOf(s.entries[m0], kind);
      && l != [] && l[|l| - 1] < |s.lanes| == |t.lanes|
      && t.entries[m0].idle == s.entries[m0].idle[kind := l[..|l| - 1]]
      && (m != m0 ==> t.entries[m].idle == s.entries[m].idle)
      && (forall x :: 0 <= x < |s.lanes| && x != l[|l| - 1] ==> t.lanes[x] == s.lanes[x])
    ensures LanesOk(t, m)
  {
    var l := IdleOf(s.entries[m0], kind);
    assert IdleListOk(s, m0, kind, l);
    forall k | k in t.entries[m].idle ensures IdleListOk(t, m, k, t.entries[m].idle[k]) {
      if m == m0 && k == kind {
      } else {
        assert IdleListOk(s, m, k, s.entries[m].idle[k]);
      }
    }
  }

  /** A lease that ends: c no longer holds m, and takes it to close if it must. */
  lemma ReturnedKeeps(s: State, u: State, c: Client, m0: ModelId)
    requires Inv(s) && m0 < |s.entries| && s.entries[m0].busy > 0 && Holds(s.At(c), m0)
    requires u == s.(entries := u.entries, lanes := u.lanes) && |u.entries| == |s.entries| && |u.lanes| == |s.lanes|
    requires u.entries == s.entries[m0 := s.entries[m0].(idle := u.entries[m0].idle)]
    requires forall m :: 0 <= m < |u.entries| ==> LanesOk(u, m)
    requires forall d, l :: d != c && 0 <= l < |s.lanes| && s.lanes[l] == Out(d) ==> u.lanes[l] == Out(d)
    ensures Inv(Returned(u, c, m0))
  {
    hide Holders, LanesOk;
    var t := Returned(u, c, m0);
    ReturnedEntries(s, u, c, m0);
    assert ClientOk(s, c) && EntryOk(s, m0);
    forall m | 0 <= m < |t.entries| ensures LanesOk(t, m) {
      LanesFramed(u, t, m);
    }
    forall d: Client ensures ClientOk(t, d) {
      assert ClientOk(s, d);
    }
  }

  lemma ReturnedEntries(s: State, u: State, c: Client, m0: ModelId)
    requires Inv(s) && m0 < |s.entries| && s.entries[m0].busy > 0 && Holds(s.At(c), m0)
    requires u == s.(entries := u.entries, lanes := u.lanes) && |u.entries| == |s.entries|
    requires u.entries == s.entries[m0 := s.entries[m0].(idle := u.entries[m0].idle)]
    ensures forall m :: 0 <= m < |s.entries| ==> EntryOk(Returned(u, c, m0), m)
  {
    hide Holders, LanesOk;
    var t := Returned(u, c, m0);
    assert EntryOk(s, m0);
    forall m | 0 <= m < |t.entries| ensures EntryOk(t, m) {
      assert EntryOk(s, m);
      if m != m0 {
        EntryFramed(s, t, c, t.At(c), m);
      } else {
        HoldersOf(s, t, c, t.At(c), m);
      }
    }
  }

  lemma LanesFramed(s: State, t: State, m: ModelId)
    requires m < |s.entries| && m < |t.entries| && LanesOk(s, m) && t.lanes == s.lanes &&
      t.entries[m].idle == s.entries[m].idle
    ensures LanesOk(t, m)
  {
    forall k | k in t.entries[m].idle ensures IdleListOk(t, m, k, t.entries[m].idle[k]) {
      assert IdleListOk(s, m, k, s.entries[m].idle[k]);
    }
  }

  lemma MakeKeeps(s: State, c: Client, ok: bool)
    requires Inv(s)
    ensures Inv(Do(s, c, Make(ok)))
  {
    var t := Do(s, c, Make(ok));
    if t != s {
      hide Holders;
      var m0 := s.At(c).m;
      assert ClientOk(s, c) && EntryOk(s, m0) && LanesOk(s, m0);
      if !ok {
        ReturnedKeeps(s, s, c, m0);
      } else {
        forall m | 0 <= m < |t.entries| ensures EntryOk(t, m) && LanesOk(t, m) {
          assert EntryOk(s, m);
          EntryFramed(s, t, c, t.At(c), m);
          forall k | k in t.entries[m].idle ensures IdleListOk(t, m, k, t.entries[m].idle[k]) {
            assert IdleListOk(s, m, k, s.entries[m].idle[k]);
          }
        }
        forall d: Client ensures ClientOk(t, d) {
          assert ClientOk(s, d);
        }
      }
    }
  }

  lemma ReleaseKeeps(s: State, c: Client)
    requires Inv(s)
    ensures Inv(Do(s, c, Release))
  {
    if Do(s, c, Release) != s {
      hide Holders;
      var pc := s.At(c);
      assert ClientOk(s, c);
      var u := Filed(s, pc.m, pc.kind, pc.lane);
      forall m | 0 <= m < |u.entries| ensures LanesOk(u, m) {
        assert LanesOk(s, m) && LanesOk(s, pc.m);
        LanesPushed(s, u, pc.m, pc.kind, pc.lane, c, m);
      }
      ReturnedKeeps(s, u, c, pc.m);
    }
  }

  /** A lane that comes back joins its list: it was in none. */
  lemma LanesPushed(s: State, u: State, m0: ModelId, kind: Kind, lane: Lane, c: Client, m: ModelId)
    requires m0 < |s.entries| == |u.entries| && m < |s.entries| && LanesOk(s, m0) && LanesOk(s, m)
    requires lane < |s.lanes| && s.lanes[lane] == Out(c) && u.lanes == s.lanes[lane := Idle(m0, kind)]
    requires u.entries[m].idle ==
      if m == m0 then s.entries[m].idle[kind := IdleOf(s.entries[m0], kind) + [lane]] else s.entries[m].idle
    ensures LanesOk(u, m)
  {
    assert IdleListOk(s, m0, kind, IdleOf(s.entries[m0], kind));
    forall k | k in u.entries[m].idle ensures IdleListOk(u, m, k, u.entries[m].idle[k]) {
      if m == m0 && k == kind {
      } else {
        assert IdleListOk(s, m, k, s.entries[m].idle[k]);
      }
    }
  }

  lemma ExpireKeeps(s: State, c: Client, m0: ModelId, stale: bool)
    requires Inv(s)
    ensures Inv(Do(s, c, Expire(m0, stale)))
  {
    var t := Do(s, c, Expire(m0, stale));
    if t != s {
      hide Holders, LanesOk;
      assert ClientOk(s, c) && EntryOk(s, m0);
      forall m | 0 <= m < |t.entries| ensures EntryOk(t, m) && LanesOk(t, m) {
        assert EntryOk(s, m);
        LanesFramed(s, t, m);
        if m != m0 {
          EntryFramed(s, t, c, t.At(c), m);
        } else {
          HoldersOf(s, t, c, t.At(c), m);
        }
      }
      forall d: Client ensures ClientOk(t, d) {
        assert ClientOk(s, d);
      }
    }
  }

  lemma CloseKeeps(s: State, c: Client)
    requires Inv(s)
    ensures Inv(Do(s, c, Close))
  {
    var t := Do(s, c, Close);
    if t != s {
      hide Holders, LanesOk;
      CloseEntries(s, c);
      forall m | 0 <= m < |t.entries| ensures LanesOk(t, m) {
        LanesFramed(s, t, m);
      }
      forall d: Client ensures ClientOk(t, d) {
        assert ClientOk(s, d);
        if d == c {
          forall m | m in Unused(s) ensures m < |t.entries| && t.entries[m].dropper == {c} {
            var p :| p in s.models && s.models[p] == m && m < |s.entries| && Closable(s.entries[m]);
          }
        } else if s.At(d).Dropping? {
          forall m | m in s.At(d).ms ensures t.entries[m].dropper == {d} {
            assert EntryOk(s, m);
          }
        }
      }
    }
  }

  lemma CloseEntries(s: State, c: Client)
    requires Inv(s) && s.At(c).Away? && !s.closed
    ensures forall m :: 0 <= m < |s.entries| ==> EntryOk(Do(s, c, Close), m)
  {
    hide Holders, LanesOk;
    var t := Do(s, c, Close);
    assert ClientOk(s, c);
    forall m | 0 <= m < |t.entries| ensures EntryOk(t, m) {
      assert EntryOk(s, m) && ClientOk(s, s.entries[m].opener);
      HoldersOf(s, t, c, t.At(c), m);
      if s.Pooled(m) && Closable(s.entries[m]) {
        assert s.entries[m].path in s.models;
        assert m in Unused(s);
      }
    }
  }

  lemma DropKeeps(s: State, c: Client, m0: ModelId)
    requires Inv(s)
    ensures Inv(Do(s, c, Drop(m0)))
  {
    var t := Do(s, c, Drop(m0));
    if t != s && t.At(c).Away? {
      MoveKeeps(s, c, Away);
    } else if t != s {
      hide Holders, LanesOk;
      DropEntries(s, c, m0);
      assert ClientOk(s, c) && c in s.entries[m0].dropper;
      forall m | 0 <= m < |t.entries| ensures LanesOk(t, m) {
        assert LanesOk(s, m);
        DropLanes(s, t, m0, m);
      }
      forall d: Client ensures ClientOk(t, d) {
        assert ClientOk(s, d);
      }
    }
  }

  lemma DropEntries(s: State, c: Client, m0: ModelId)
    requires Inv(s) && s.At(c).Dropping? && m0 in s.At(c).ms && m0 < |s.entries|
    ensures forall m :: 0 <= m < |s.entries| ==> EntryOk(Do(s, c, Drop(m0)), m)
  {
    hide Holders, LanesOk;
    var t := Do(s, c, Drop(m0));
    assert ClientOk(s, c);
    forall m | 0 <= m < |t.entries| ensures EntryOk(t, m) {
      assert EntryOk(s, m);
      HoldersOf(s, t, c, t.At(c), m);
    }
  }

  lemma DropLanes(s: State, t: State, m0: ModelId, m: ModelId)
    requires m0 < |s.entries| == |t.entries| && m < |s.entries| && LanesOk(s, m) && |t.lanes| == |s.lanes|
    requires t.entries[m].idle == if m == m0 then map[] else s.entries[m].idle
    requires forall l :: 0 <= l < |s.lanes| && !(s.lanes[l].Idle? && s.lanes[l].m == m0) ==> t.lanes[l] == s.lanes[l]
    ensures LanesOk(t, m)
  {
    forall k | k in t.entries[m].idle ensures IdleListOk(t, m, k, t.entries[m].idle[k]) {
      assert IdleListOk(s, m, k, s.entries[m].idle[k]);
    }
  }

  // Whole runs.

  datatype Event = Event(c: Client, a: Action)

  function Run(s: State, es: seq<Event>): State
    decreases |es|
  {
    if es == [] then s else Run(Do(s, es[0].c, es[0].a), es[1..])
  }

  lemma StepKeeps(s: State, c: Client, a: Action)
    requires Inv(s)
    ensures Inv(Do(s, c, a))
  {
    hide Inv, Do;
    match a
    case Acquire(path, kind) => AcquireKeeps(s, c, path, kind);
    case Get => GetKeeps(s, c);
    case Open(ok) => OpenKeeps(s, c, ok);
    case Check => CheckKeeps(s, c);
    case Publish => PublishKeeps(s, c);
    case Lock => LockKeeps(s, c);
    case Make(ok) => MakeKeeps(s, c, ok);
    case Release => ReleaseKeeps(s, c);
    case Expire(m, stale) => ExpireKeeps(s, c, m, stale);
    case Close => CloseKeeps(s, c);
    case Drop(m) => DropKeeps(s, c, m);
  }

  lemma {:induction false} RunKeeps(s: State, es: seq<Event>)
    requires Inv(s)
    ensures Inv(Run(s, es))
    decreases |es|
  {
    hide Inv, Do;
    if es != [] {
      StepKeeps(s, es[0].c, es[0].a);
      RunKeeps(Do(s, es[0].c, es[0].a), es[1..]);
    }
  }

  lemma EmptyInv()
    ensures Inv(Empty)
  {
  }

  /** In every interleaving, a model is closed at most once, and while a lease on it is out
      it is open, announced, not closed and in no one's hands to close. */
  lemma ClosedAtMostOnce(es: seq<Event>, m: ModelId)
    ensures var s := Run(Empty, es);
      m < |s.entries| ==>
        && s.entries[m].closes <= 1
        && forall c :: Holds(s.At(c), m) ==>
             s.entries[m].ready && s.entries[m].loaded && s.entries[m].closes == 0 && s.entries[m].dropper == {}
  {
    EmptyInv();
    RunKeeps(Empty, es);
    var s := Run(Empty, es);
    if m < |s.entries| {
      hide Inv, Run;
      EntryOf(s, m);
      forall c | Holds(s.At(c), m) ensures s.entries[m].busy > 0 {
        assert c in Holders(s, m);
      }
    }
  }

  lemma EntryOf(s: State, m: ModelId)
    requires Inv(s) && m < |s.entries|
    ensures EntryOk(s, m) && LanesOk(s, m)
  {
  }

  lemma ClientOf(s: State, c: Client)
    requires Inv(s)
    ensures ClientOk(s, c)
  {
  }

  /** A client about to close a model: no lease on it is out, and no other client is. */
  lemma ClosesAlone(es: seq<Event>, c: Client, d: Client, m: ModelId)
    ensures var s := Run(Empty, es);
      s.At(c).Dropping? && m in s.At(c).ms ==>
        && m < |s.entries| && s.entries[m].closes == 0 && Holders(s, m) == {}
        && (s.At(d).Dropping? && m in s.At(d).ms ==> d == c)
  {
    EmptyInv();
    RunKeeps(Empty, es);
    var s := Run(Empty, es);
    if s.At(c).Dropping? && m in s.At(c).ms {
      hide Inv, Run;
      ClientOf(s, c);
      ClientOf(s, d);
      EntryOf(s, m);
      assert c in s.entries[m].dropper;
    }
  }

  /** No lane is leased twice, idle twice, or both leased and idle. */
  lemma OneUsePerLane(es: seq<Event>, c: Client, d: Client, m: ModelId, k: Kind, m': ModelId, k': Kind, i: nat, j: nat)
    ensures var s := Run(Empty, es);
      && (s.At(c).Leasing? && s.At(d).Leasing? && s.At(c).lane == s.At(d).lane ==> c == d)
      && (s.At(c).Leasing? && m < |s.entries| && i < |IdleOf(s.entries[m], k)| ==>
        IdleOf(s.entries[m], k)[i] != s.At(c).lane)
      && (m < |s.entries| && m' < |s.entries| && i < |IdleOf(s.entries[m], k)| && j < |IdleOf(s.entries[m'], k')| ==>
          (IdleOf(s.entries[m], k)[i] == IdleOf(s.entries[m'], k')[j] ==> m == m' && k == k' && i == j))
  {
    EmptyInv();
    RunKeeps(Empty, es);
    var s := Run(Empty, es);
    hide Inv, Run;
    ClientOf(s, c);
    ClientOf(s, d);
    if m < |s.entries| && i < |IdleOf(s.entries[m], k)| {
      EntryOf(s, m);
      assert IdleListOk(s, m, k, IdleOf(s.entries[m], k));
      if m' < |s.entries| && j < |IdleOf(s.entries[m'], k')| {
        EntryOf(s, m');
        assert IdleListOk(s, m', k', IdleOf(s.entries[m'], k'));
      }
    }
  }

  // What becomes of a lane.

  /** Lane l is out with the client that leases it, of the model and kind it was made for; or idle
      there, in that model's list for that kind; or closed, with its model. */
  ghost predicate LaneTold(s: State, l: Lane)
    requires l < |s.lanes| == |s.made|
  {
    var (m, kind) := s.made[l];
    m < |s.entries| &&
    match s.lanes[l]
    case Out(c) => s.At(c) == Leasing(m, kind, l)
    case Idle(m', kind') => (m', kind') == (m, kind) && l in IdleOf(s.entries[m], kind)
    case Gone => s.entries[m].closes > 0
  }

  ghost predicate LanesTold(s: State) {
    |s.lanes| == |s.made| && forall l :: 0 <= l < |s.lanes| ==> LaneTold(s, l)
  }

  /** A step that leaves lane l where it is. */
  lemma LaneStays(s: State, t: State, c: Client, l: Lane)
    requires l < |s.lanes| == |s.made| && LaneTold(s, l) && l < |t.lanes| == |t.made|
    requires t.lanes[l] == s.lanes[l] && t.made[l] == s.made[l] && |s.entries| <= |t.entries|
    requires forall d :: d != c ==> t.At(d) == s.At(d)
    requires s.lanes[l] == Out(c) ==> t.At(c) == s.At(c)
    requires forall m :: 0 <= m < |s.entries| ==> s.entries[m].closes <= t.entries[m].closes
    requires s.lanes[l].Idle? && s.lanes[l].m < |s.entries| ==>
      (l in IdleOf(s.entries[s.lanes[l].m], s.lanes[l].kind) ==> l in IdleOf(t.entries[s.lanes[l].m], s.lanes[l].kind))
    ensures LaneTold(t, l)
  {
  }

  /** A step of a client without a lease that leaves every lane and every list as it was. */
  lemma OtherTold(s: State, c: Client, a: Action)
    requires Inv(s) && LanesTold(s)
    requires !a.Lock? && !a.Make? && !a.Release? && !a.Drop?
    ensures LanesTold(Do(s, c, a))
  {
    hide Inv, LaneTold;
    var t := Do(s, c, a);
    if t != s {
      forall l | 0 <= l < |t.lanes| ensures LaneTold(t, l) {
        assert LaneTold(s, l);
        NotLeasing(s, c, l);
        LaneStays(s, t, c, l);
      }
    }
  }

  lemma NotLeasing(s: State, c: Client, l: Lane)
    requires l < |s.lanes| == |s.made| && LaneTold(s, l)
    ensures s.lanes[l] == Out(c) ==> s.At(c).Leasing? && s.At(c).lane == l
  {
  }

  lemma LockTold(s: State, c: Client)
    requires Inv(s) && LanesTold(s)
    ensures LanesTold(Do(s, c, Lock))
  {
    var t, pc := Do(s, c, Lock), s.At(c);
    if t != s {
      EntryOf(s, pc.m);
      LastIdle(s, pc.m, pc.kind);
      LockIs(s, c);
      hide Inv, LanesOk, EntryOk, IdleOf, Do;
      forall l | 0 <= l < |t.lanes| ensures LaneTold(t, l) {
        assert LaneTold(s, l);
        if t.lanes[l] == s.lanes[l] {
          PoppedStays(s, pc.m, pc.kind, l);
          LaneStays(s, t, c, l);
        }
      }
    }
  }

  lemma LockIs(s: State, c: Client)
    requires Do(s, c, Lock) != s
    ensures var t, pc := Do(s, c, Lock), s.At(c);
      && pc.Waiting? && pc.m < |s.entries| && |t.entries| == |s.entries| && t.made == s.made
      && t.entries == s.entries[pc.m := t.entries[pc.m]] && t.entries[pc.m].closes == s.entries[pc.m].closes
      && t.clients == s.clients[c := t.At(c)]
      && var ls := IdleOf(s.entries[pc.m], pc.kind);
      if t.At(c).Leasing? then
        && ls != [] && t.At(c) == Leasing(pc.m, pc.kind, ls[|ls| - 1]) && ls[|ls| - 1] < |s.lanes|
        && t.lanes == s.lanes[ls[|ls| - 1] := Out(c)] && IdleOf(t.entries[pc.m], pc.kind) == ls[..|ls| - 1]
        && forall k :: k != pc.kind ==> IdleOf(t.entries[pc.m], k) == IdleOf(s.entries[pc.m], k)
      else t.lanes == s.lanes && forall k :: IdleOf(t.entries[pc.m], k) == IdleOf(s.entries[pc.m], k)
  {
  }

  /** Only the last of a list leaves it. */
  lemma PoppedStays(s: State, m: ModelId, kind: Kind, l: Lane)
    requires m < |s.entries|
    ensures var ls := IdleOf(s.entries[m], kind);
      ls != [] && l in ls && l != ls[|ls| - 1] ==> l in ls[..|ls| - 1]
  {
  }

  lemma MakeTold(s: State, c: Client, ok: bool)
    requires Inv(s) && LanesTold(s)
    ensures LanesTold(Do(s, c, Make(ok)))
  {
    var t := Do(s, c, Make(ok));
    if t != s {
      ClientOf(s, c);
      ReturnedStays(s, c, s.At(c).m);
      hide Inv, Returned;
      forall l | 0 <= l < |t.lanes| ensures LaneTold(t, l) {
        if l < |s.lanes| {
          assert LaneTold(s, l);
          LaneStays(s, t, c, l);
        }
      }
    }
  }

  /** After a lease ends, its client is away or has its model to close; lanes and lists stay. */
  lemma ReturnedStays(s: State, c: Client, m: ModelId)
    requires m < |s.entries| && s.entries[m].busy > 0
    ensures var t := Returned(s, c, m);
      && t.lanes == s.lanes && t.made == s.made && |t.entries| == |s.entries|
      && t.entries == s.entries[m := t.entries[m]] && t.entries[m].closes == s.entries[m].closes
      && t.entries[m].idle == s.entries[m].idle && t.entries[m].path == s.entries[m].path
      && (t.At(c).Away? || t.At(c).Dropping?) && (forall d :: d != c ==> t.At(d) == s.At(d))
  {
  }

  lemma ReleaseTold(s: State, c: Client)
    requires Inv(s) && LanesTold(s)
    ensures LanesTold(Do(s, c, Release))
  {
    var t, pc := Do(s, c, Release), s.At(c);
    if t != s {
      ClientOf(s, c);
      ReturnedStays(Filed(s, pc.m, pc.kind, pc.lane), c, pc.m);
      hide Inv, Returned, Do;
      assert LaneTold(s, pc.lane);
      ReleaseIs(s, c);
      forall l | 0 <= l < |t.lanes| ensures LaneTold(t, l) {
        assert LaneTold(s, l);
        if l != pc.lane {
          LaneStays(s, t, c, l);
        }
      }
    }
  }

  lemma ReleaseIs(s: State, c: Client)
    requires Do(s, c, Release) != s
    ensures var pc := s.At(c);
      pc.Leasing? && pc.m < |s.entries| && pc.lane < |s.lanes| && s.entries[pc.m].busy > 0 &&
      Do(s, c, Release) == Returned(Filed(s, pc.m, pc.kind, pc.lane), c, pc.m)
  {
    hide Returned, Filed;
  }

  lemma DropTold(s: State, c: Client, m: ModelId)
    requires Inv(s) && LanesTold(s)
    ensures LanesTold(Do(s, c, Drop(m)))
  {
    var t := Do(s, c, Drop(m));
    if t != s {
      hide Inv;
      forall l | 0 <= l < |t.lanes| ensures LaneTold(t, l) {
        assert LaneTold(s, l);
        if t.lanes[l] == s.lanes[l] {
          LaneStays(s, t, c, l);
        }
      }
    }
  }

  lemma StepTold(s: State, c: Client, a: Action)
    requires Inv(s) && LanesTold(s)
    ensures LanesTold(Do(s, c, a))
  {
    hide Inv, Do, LanesTold;
    match a
    case Lock => LockTold(s, c);
    case Make(ok) => MakeTold(s, c, ok);
    case Release => ReleaseTold(s, c);
    case Drop(m) => DropTold(s, c, m);
    case _ => OtherTold(s, c, a);
  }

  lemma {:induction false} RunTold(s: State, es: seq<Event>)
    requires Inv(s) && LanesTold(s)
    ensures LanesTold(Run(s, es))
    decreases |es|
  {
    hide Inv, Do, LanesTold;
    if es != [] {
      StepKeeps(s, es[0].c, es[0].a);
      StepTold(s, es[0].c, es[0].a);
      RunTold(Do(s, es[0].c, es[0].a), es[1..]);
    }
  }

  /** In every interleaving, the lane of a lease was made for the lease's model and kind, and so was
      every lane idle there under that kind. */
  lemma LeasesWhatWasMade(es: seq<Event>, c: Client, m: ModelId, kind: Kind, i: nat)
    ensures var s := Run(Empty, es);
      && |s.lanes| == |s.made|
      && (s.At(c).Leasing? ==> s.At(c).lane < |s.made| && s.made[s.At(c).lane] == (s.At(c).m, s.At(c).kind))
      && (m < |s.entries| && i < |IdleOf(s.entries[m], kind)| ==>
            var l := IdleOf(s.entries[m], kind)[i]; l < |s.made| && s.made[l] == (m, kind))
  {
    EmptyInv();
    RunKeeps(Empty, es);
    RunTold(Empty, es);
    var s := Run(Empty, es);
    hide Inv, Run;
    ClientOf(s, c);
    if s.At(c).Leasing? {
      assert LaneTold(s, s.At(c).lane);
    }
    if m < |s.entries| && i < |IdleOf(s.entries[m], kind)| {
      EntryOf(s, m);
      assert IdleListOk(s, m, kind, IdleOf(s.entries[m], kind));
      assert LaneTold(s, IdleOf(s.entries[m], kind)[i]);
    }
  }

  /** No lane is lost: each is with the one client that leases it, or idle in a list, or closed with
      its model. */
  lemma NoLaneLost(es: seq<Event>, l: Lane)
    ensures var s := Run(Empty, es);
      l < |s.made| ==>
        var (m, kind) := s.made[l];
        m < |s.entries| && l < |s.lanes| &&
        ((exists c :: s.At(c) == Leasing(m, kind, l)) || l in IdleOf(s.entries[m], kind) || s.entries[m].closes > 0)
  {
    EmptyInv();
    RunTold(Empty, es);
    var s := Run(Empty, es);
    hide Inv, Run;
    if l < |s.made| {
      assert LaneTold(s, l);
    }
  }

  // No model stays open for want of a timer.

  /** A model in the pool without a lease has its timer set, unless its opener is about to lease it. */
  ghost predicate Timed(s: State, m: ModelId)
    requires m < |s.entries|
  {
    var e := s.entries[m];
    e.ready && !e.failed && s.Pooled(m) && e.busy == 0 && !e.armed ==>
      s.At(e.opener).Waiting? && s.At(e.opener).m == m
  }

  /** A step that leaves an entry alone, and is not the opener's or leaves it waiting. */
  lemma TimedStays(s: State, t: State, m: ModelId)
    requires m < |s.entries| <= |t.entries| && Timed(s, m) && t.entries[m].opener == s.entries[m].opener
    requires t.entries[m].ready == s.entries[m].ready && t.entries[m].busy == s.entries[m].busy
    requires t.entries[m].failed == s.entries[m].failed && (s.entries[m].armed ==> t.entries[m].armed)
    requires t.Pooled(m) ==> s.Pooled(m)
    requires var o := s.entries[m].opener; s.At(o).Waiting? && s.At(o).m == m ==> t.At(o) == s.At(o)
    ensures Timed(t, m)
  {
  }

  lemma StepTimed(s: State, c: Client, a: Action)
    requires Inv(s) && forall m :: 0 <= m < |s.entries| ==> Timed(s, m)
    ensures forall m :: 0 <= m < |Do(s, c, a).entries| ==> Timed(Do(s, c, a), m)
  {
    hide Inv, Do, Timed;
    match a
    case Lock => LockTimed(s, c);
    case Make(ok) => ReturnTimed(s, c, a);
    case Release => ReturnTimed(s, c, a);
    case Publish => PublishTimed(s, c);
    case Expire(_, _) => ClosingTimed(s, c, a);
    case Close => ClosingTimed(s, c, a);
    case Drop(_) => ClosingTimed(s, c, a);
    case _ => OpeningTimed(s, c, a);
  }

  lemma ClosingTimed(s: State, c: Client, a: Action)
    requires Inv(s) && forall m :: 0 <= m < |s.entries| ==> Timed(s, m)
    requires a.Expire? || a.Close? || a.Drop?
    ensures forall m :: 0 <= m < |Do(s, c, a).entries| ==> Timed(Do(s, c, a), m)
  {
    hide Inv, Timed, Unused;
    var t := Do(s, c, a);
    forall m | 0 <= m < |t.entries| ensures Timed(t, m) {
      assert Timed(s, m);
      TimedStays(s, t, m);
    }
  }

  lemma OpeningTimed(s: State, c: Client, a: Action)
    requires Inv(s) && forall m :: 0 <= m < |s.entries| ==> Timed(s, m)
    requires a.Acquire? || a.Get? || a.Open? || a.Check?
    ensures forall m :: 0 <= m < |Do(s, c, a).entries| ==> Timed(Do(s, c, a), m)
  {
    hide Inv, Timed;
    var t := Do(s, c, a);
    forall m | 0 <= m < |t.entries| ensures Timed(t, m) {
      if m < |s.entries| {
        assert Timed(s, m);
        TimedStays(s, t, m);
      } else {
        NewIsTimed(t, m);
      }
    }
  }

  lemma NewIsTimed(t: State, m: ModelId)
    requires m < |t.entries| && !t.entries[m].ready
    ensures Timed(t, m)
  {
  }

  /** The opener that announces its model waits for it. */
  lemma PublishTimed(s: State, c: Client)
    requires Inv(s) && forall m :: 0 <= m < |s.entries| ==> Timed(s, m)
    ensures forall m :: 0 <= m < |Do(s, c, Publish).entries| ==> Timed(Do(s, c, Publish), m)
  {
    var t := Do(s, c, Publish);
    if t != s {
      ClientOf(s, c);
      hide Inv;
      forall m | 0 <= m < |t.entries| ensures Timed(t, m) {
        assert Timed(s, m);
        if m != s.At(c).m {
          TimedStays(s, t, m);
        }
      }
    }
  }

  lemma LockTimed(s: State, c: Client)
    requires Inv(s) && forall m :: 0 <= m < |s.entries| ==> Timed(s, m)
    ensures forall m :: 0 <= m < |Do(s, c, Lock).entries| ==> Timed(Do(s, c, Lock), m)
  {
    var t, pc := Do(s, c, Lock), s.At(c);
    if t != s {
      hide Inv, IdleOf;
      forall m | 0 <= m < |t.entries| ensures Timed(t, m) {
        if m != pc.m {
          assert Timed(s, m);
          TimedStays(s, t, m);
        }
      }
    }
  }

  lemma ReturnTimed(s: State, c: Client, a: Action)
    requires Inv(s) && (a.Make? || a.Release?) && forall m :: 0 <= m < |s.entries| ==> Timed(s, m)
    ensures forall m :: 0 <= m < |Do(s, c, a).entries| ==> Timed(Do(s, c, a), m)
  {
    var t, pc := Do(s, c, a), s.At(c);
    if t != s {
      hide Inv, IdleOf;
      forall m | 0 <= m < |t.entries| ensures Timed(t, m) {
        assert Timed(s, m);
        if m != pc.m || a == Make(true) {
          TimedStays(s, t, m);
        }
      }
    }
  }

  lemma {:induction false} RunTimed(s: State, es: seq<Event>)
    requires Inv(s) && forall m :: 0 <= m < |s.entries| ==> Timed(s, m)
    ensures forall m :: 0 <= m < |Run(s, es).entries| ==> Timed(Run(s, es), m)
    decreases |es|
  {
    hide Inv, Do, Timed;
    if es != [] {
      StepKeeps(s, es[0].c, es[0].a);
      StepTimed(s, es[0].c, es[0].a);
      RunTimed(Do(s, es[0].c, es[0].a), es[1..]);
    }
  }

  /** In every interleaving, once all clients are away every model that the pool holds can expire, and
      the timer's goroutine then has it to close. */
  lemma UnusedExpires(es: seq<Event>, c: Client, m: ModelId)
    ensures var s := Run(Empty, es);
      (forall d :: s.At(d).Away?) && m < |s.entries| && s.Pooled(m) ==>
        Do(s, c, Expire(m, true)).At(c) == Dropping({m}) && s.entries[m].path !in Do(s, c, Expire(m, true)).models
  {
    EmptyInv();
    RunKeeps(Empty, es);
    RunTimed(Empty, es);
    var s := Run(Empty, es);
    hide Inv, Run;
    if (forall d :: s.At(d).Away?) && m < |s.entries| && s.Pooled(m) {
      EntryOf(s, m);
      assert Timed(s, m);
      assert forall d :: d in s.clients ==> s.At(d).Away?;
      assert Holders(s, m) == {};
    }
  }

  /** An Acquire ends without a lease only when the pool is closed, the model did not open, or its lane
      was not made. */
  lemma RefusedOnly(s: State, c: Client, a: Action)
    requires (s.At(c).Seeking? || HasModel(s.At(c))) && (Do(s, c, a).At(c).Away? || Do(s, c, a).At(c).Dropping?)
    ensures match a
      case Get => s.closed
      case Lock => s.At(c).m < |s.entries| && s.entries[s.At(c).m].failed
      case Make(ok) => !ok
      case Release => s.At(c).Leasing?
      case _ => false
  {
    hide IdleOf, Removed, Returned;
  }

  /** A model counts as not opened exactly when Open failed or the pool did not hold it any more. */
  lemma FailedIff(s: State, c: Client, m: ModelId)
    requires Inv(s) && s.At(c).Checked? && s.At(c).m == m
    ensures m < |s.entries| && Do(s, c, Publish).entries[m].ready
    ensures Do(s, c, Publish).entries[m].failed <==> !(s.At(c).ok && s.At(c).held)
  {
    ClientOf(s, c);
  }

  lemma CheckedIsHeld(s: State, c: Client)
    requires s.At(c).Opened? && s.At(c).m < |s.entries|
    ensures Do(s, c, Check).At(c) == Checked(s.At(c).m, s.At(c).kind, s.At(c).ok, s.Pooled(s.At(c).m))
  {
  }

  /** A client that waited for an open model gets a lane: one that is idle, or one made for it. */
  lemma WaiterServed(s: State, c: Client)
    requires Inv(s) && s.At(c).Waiting? && s.At(c).m < |s.entries|
    requires s.entries[s.At(c).m].ready && !s.entries[s.At(c).m].failed
    requires s.Pooled(s.At(c).m)
    ensures var (pc, t) := (s.At(c), Do(s, c, Lock));
      if IdleOf(s.entries[pc.m], pc.kind) != [] then t.At(c).Leasing? && t.At(c).m == pc.m && t.At(c).kind == pc.kind
      else t.At(c) == Making(pc.m, pc.kind) && Do(t, c, Make(true)).At(c) == Leasing(pc.m, pc.kind, |s.lanes|)
  {
    ClientOf(s, c);
    EntryOf(s, s.At(c).m);
    LastIdle(s, s.At(c).m, s.At(c).kind);
  }

  /** What a client last asked for: the Acquire it called when it was away. */
  function Asked(s: State, asked: map<Client, (Path, Kind)>, e: Event): map<Client, (Path, Kind)> {
    if e.a.Acquire? && s.At(e.c).Away? then asked[e.c := (e.a.path, e.a.kind)] else asked
  }

  function AskedBy(s: State, asked: map<Client, (Path, Kind)>, es: seq<Event>): map<Client, (Path, Kind)>
    decreases |es|
  {
    if es == [] then asked else AskedBy(Do(s, es[0].c, es[0].a), Asked(s, asked, es[0]), es[1..])
  }

  predicate HasModel(pc: PC) {
    pc.Opening? || pc.Opened? || pc.Checked? || pc.Waiting? || pc.Making? || pc.Leasing?
  }

  /** A client is busy with what it asked for. */
  ghost predicate Serves(s: State, asked: map<Client, (Path, Kind)>, c: Client) {
    var pc := s.At(c);
    && (pc.Seeking? ==> c in asked && asked[c] == (pc.path, pc.kind))
    && (HasModel(pc) ==> c in asked && pc.m < |s.entries| && asked[c] == (s.entries[pc.m].path, pc.kind))
  }

  lemma StepServes(s: State, asked: map<Client, (Path, Kind)>, e: Event, d: Client)
    requires Inv(s) && Serves(s, asked, d)
    ensures Serves(Do(s, e.c, e.a), Asked(s, asked, e), d)
  {
    PathsStay(s, e.c, e.a);
    if d == e.c {
      ModelPaths(s);
      if s.At(d).Away? {
        FromAway(s, d, e.a);
      } else {
        GoesOn(s, d, e.a);
      }
    }
  }

  lemma ModelPaths(s: State)
    requires Inv(s)
    ensures forall p :: p in s.models ==> s.models[p] < |s.entries| && s.entries[s.models[p]].path == p
  {
  }

  /** No step changes an entry's path, or where another client is. */
  lemma PathsStay(s: State, c: Client, a: Action)
    ensures |s.entries| <= |Do(s, c, a).entries|
    ensures forall m :: 0 <= m < |s.entries| ==> Do(s, c, a).entries[m].path == s.entries[m].path
    ensures forall d :: d != c ==> Do(s, c, a).At(d) == s.At(d)
  {
    hide IdleOf, Removed, Returned, Filed;
    match a
    case Make(_) => ReturnPaths(s, c, a);
    case Release => ReturnPaths(s, c, a);
    case Close => RemovedPath(s, c);
    case _ =>
  }

  lemma ReturnPaths(s: State, c: Client, a: Action)
    requires a.Make? || a.Release?
    ensures |Do(s, c, a).entries| == |s.entries|
    ensures forall m :: 0 <= m < |s.entries| ==> Do(s, c, a).entries[m].path == s.entries[m].path
    ensures forall d :: d != c ==> Do(s, c, a).At(d) == s.At(d)
  {
    hide IdleOf;
    var pc := s.At(c);
    if Do(s, c, a) != s && a != Make(true) {
      if a.Release? {
        ReleaseIs(s, c);
        ReturnedStays(Filed(s, pc.m, pc.kind, pc.lane), c, pc.m);
      } else {
        ReturnedStays(s, c, pc.m);
      }
    }
  }

  lemma RemovedPath(s: State, c: Client)
    ensures forall m :: 0 <= m < |s.entries| ==> Removed(s, c, m).path == s.entries[m].path
  {
  }

  /** An away client only asks, closes a model, or stays away. */
  lemma FromAway(s: State, c: Client, a: Action)
    requires s.At(c).Away?
    ensures var pc := Do(s, c, a).At(c);
      if a.Acquire? then pc == Seeking(a.path, a.kind) else pc.Away? || pc.Dropping?
  {
    hide IdleOf, Removed, Returned;
  }

  /** The path and kind a busy client has in hand. */
  function Wants(s: State, pc: PC): Option<(Path, Kind)> {
    if pc.Seeking? then Some((pc.path, pc.kind))
    else if HasModel(pc) && pc.m < |s.entries| then Some((s.entries[pc.m].path, pc.kind))
    else None
  }

  /** A busy client goes on with the path and kind it has, or is done. */
  lemma GoesOn(s: State, c: Client, a: Action)
    requires Inv(s) && !s.At(c).Away?
    ensures var (t, was, pc) := (Do(s, c, a), s.At(c), Do(s, c, a).At(c));
      pc == was || pc.Away? || pc.Dropping? ||
      (Wants(s, was).Some? && Wants(t, pc) == Wants(s, was))
  {
    ModelPaths(s);
    PathsStay(s, c, a);
    hide IdleOf, Removed, Returned, Inv;
    if (a.Make? || a.Release?) && Do(s, c, a) != s {
      ReturnsAway(s, c, a);
    }
  }

  lemma ReturnsAway(s: State, c: Client, a: Action)
    requires Do(s, c, a) != s && (a.Release? || a.Make?)
    ensures a == Make(true) || Do(s, c, a).At(c).Away? || Do(s, c, a).At(c).Dropping?
  {
    hide IdleOf, Returned;
    if a.Release? {
      ReleaseIs(s, c);
      var pc := s.At(c);
      ReturnedStays(Filed(s, pc.m, pc.kind, pc.lane), c, pc.m);
    } else if !a.ok {
      ReturnedStays(s, c, s.At(c).m);
    }
  }

  lemma {:induction false} RunServes(s: State, asked: map<Client, (Path, Kind)>, es: seq<Event>, d: Client)
    requires Inv(s) && Serves(s, asked, d)
    ensures Serves(Run(s, es), AskedBy(s, asked, es), d)
    decreases |es|
  {
    hide Inv, Do, Serves, Asked;
    if es != [] {
      StepKeeps(s, es[0].c, es[0].a);
      StepServes(s, asked, es[0], d);
      RunServes(Do(s, es[0].c, es[0].a), Asked(s, asked, es[0]), es[1..], d);
    }
  }

  /** In every interleaving, a lease is of the model at the path that its client asked for, and its
      lane was made for that model and for the kind asked for. */
  lemma LeasesWhatWasAsked(es: seq<Event>, c: Client)
    ensures var (s, asked) := (Run(Empty, es), AskedBy(Empty, map[], es));
      s.At(c).Leasing? ==>
        && c in asked && s.At(c).m < |s.entries| && s.At(c).lane < |s.made|
        && asked[c] == (s.entries[s.At(c).m].path, s.made[s.At(c).lane].1)
        && s.made[s.At(c).lane].0 == s.At(c).m
  {
    EmptyInv();
    RunServes(Empty, map[], es, c);
    LeasesWhatWasMade(es, c, 0, 0, 0);
  }

  /** Once the pool is closed and every client is away, a model that opened is closed
      exactly when Close did not fall between its check and its announcement. */
  lemma LeaksOnlyThroughTheGap(es: seq<Event>, m: ModelId)
    ensures var s := Run(Empty, es);
      s.closed && (forall c :: s.At(c).Away?) && m < |s.entries| && s.entries[m].loaded ==>
        (s.entries[m].closes == 1 <==> !s.entries[m].orphaned)
  {
    EmptyInv();
    RunKeeps(Empty, es);
    var s := Run(Empty, es);
    if s.closed && (forall c :: s.At(c).Away?) && m < |s.entries| {
      assert s.models == map[];
      hide Inv, Run;
      EntryOf(s, m);
      assert forall c :: c in s.clients ==> s.At(c).Away?;
      assert Holders(s, m) == {};
      assert forall d :: d in s.entries[m].dropper ==> s.At(d).Dropping?;
    }
  }

  /** A model is orphaned by a Close step inside its gap and by nothing else, for good. */
  lemma OrphanedInTheGap(s: State, c: Client, a: Action, m: ModelId)
    requires m < |s.entries|
    ensures m < |Do(s, c, a).entries|
    ensures Do(s, c, a).entries[m].orphaned <==>
      s.entries[m].orphaned || (a.Close? && s.At(c).Away? && !s.closed && s.Pooled(m) && s.entries[m].gap)
  {
    hide IdleOf, Returned;
    match a
    case Close =>
      if Do(s, c, a) != s {
        assert Do(s, c, a).entries[m] == Removed(s, c, m);
      }
    case _ =>
  }

  /** A model is in its gap while the client that opens it has checked it and not said so. */
  lemma GapIsChecked(s: State, m: ModelId)
    requires Inv(s) && m < |s.entries| && s.entries[m].gap
    ensures var pc := s.At(s.entries[m].opener); pc.Checked? && pc.m == m && pc.ok && pc.held
  {
    EntryOf(s, m);
    ClientOf(s, s.entries[m].opener);
  }

  /** Such a run: client 0 opens a model, client 1 closes the pool in the gap, and the
      model stays open with no one left to close it. */
  const GapRun: seq<Event> := [
    Event(0, Acquire(7, 0)), Event(0, Get), Event(0, Open(true)), Event(0, Check),
    Event(1, Close), Event(1, Drop(0)), Event(0, Publish), Event(0, Lock), Event(0, Get)]

  lemma GapRunLeaks()
    ensures var s := Run(Empty, GapRun);
      && s.closed && s.At(0).Away? && s.At(1).Away? && |s.entries| == 1
      && s.entries[0].loaded && s.entries[0].closes == 0 && s.entries[0].orphaned
  {
    var s1 := Do(Empty, 0, Acquire(7, 0));
    var s2 := Do(s1, 0, Get);
    var s3 := Do(s2, 0, Open(true));
    var s4 := Do(s3, 0, Check);
    assert s4 == GapState by {
      assert s2 == State(false, map[7 := 0],
        [Entry(7, false, false, false, 0, map[], 0, 0, {}, false, false, false)], map[0 := Opening(0, 0)], [], []);
    }
    hide Do;
    var s5 := Do(s4, 1, Close);
    var s6 := Do(s5, 1, Drop(0));
    var s7 := Do(s6, 0, Publish);
    var s8 := Do(s7, 0, Lock);
    var s9 := Do(s8, 0, Get);
    RunSteps(Empty, GapRun, [Empty, s1, s2, s3, s4, s5, s6, s7, s8, s9]);
    GapStateLeaks();
  }

  /** Client 0 has found its model held, and has not announced it. */
  const GapState := State(false, map[7 := 0],
    [Entry(7, false, true, false, 0, map[], 0, 0, {}, false, true, false)], map[0 := Checked(0, 0, true, true)], [], [])

  lemma GapStateLeaks()
    ensures var s := Do(Do(Do(Do(Do(GapState, 1, Close), 1, Drop(0)), 0, Publish), 0, Lock), 0, Get);
      && s.closed && s.At(0).Away? && s.At(1).Away? && |s.entries| == 1
      && s.entries[0].loaded && s.entries[0].closes == 0 && s.entries[0].orphaned
  {
    assert Unused(GapState) == {};
    var s5 := Do(GapState, 1, Close);
    assert s5.entries == [Entry(7, false, true, false, 0, map[], 0, 0, {}, false, true, true)];
  }

  lemma {:induction false} RunSteps(s: State, es: seq<Event>, states: seq<State>)
    requires |states| == |es| + 1 && states[0] == s
    requires forall i :: 0 <= i < |es| ==> states[i + 1] == Do(states[i], es[i].c, es[i].a)
    ensures Run(s, es) == states[|es|]
    decreases |es|
  {
    hide Do;
    if es != [] {
      RunSteps(states[1], es[1..], states[1..]);
    }
  }
}
