/** The advertising module: a start request falls through to the first mode that can run,
    each advertising timeout moves on, and a start during a flash operation is deferred. */
module AdvertisingModes {
  import opened Options

  datatype Mode = Directed | DirectedSlow | Fast | Slow | Idle

  datatype Config = Config(directed: bool, directedSlow: bool, fast: bool, slow: bool, whitelist: bool)

  datatype AdvEvt =
    | EvtIdle | EvtDirected | EvtDirectedSlow | EvtFast | EvtSlow | EvtFastWhitelist | EvtSlowWhitelist
    | PeerAddrRequest | WhitelistRequest

  const SUCCESS := 0
  const NO_LINK := 0xFFFF

  /** What the environment answers during a start: whether flash operations are queued, the
      peer address the application replies with (0 for none), whether it replies to a
      whitelist request, with entries or without, and the code of setting the advertising
      data, which advertising with a whitelist does. */
  datatype World = World(flash: bool, peer: int, whitelist: Option<bool>, advdata: int)

  /** The module's variables. `onAir` is the mode last handed to the SoftDevice, `told` the
      events the application has been sent, `reported` the codes its error handler got. */
  datatype State = State(
    config: Config,
    handler: bool,
    errorHandler: bool,
    mode: Mode,
    evt: AdvEvt,
    pending: bool,
    whitelistOff: bool,
    entries: bool,
    link: int,
    onAir: Option<Mode>,
    told: seq<AdvEvt>,
    reported: seq<int>)

  function Rank(m: Mode): nat {
    match m
    case Directed => 4
    case DirectedSlow => 3
    case Fast => 2
    case Slow => 1
    case Idle => 0
  }

  // ---------- what a start should do ----------

  /** A mode can run if it is enabled and, when directed, the peer is known. */
  predicate CanRun(c: Config, m: Mode, peer: int) {
    match m
    case Directed => c.directed && peer != 0
    case DirectedSlow => c.directedSlow && peer != 0
    case Fast => c.fast
    case Slow => c.slow
    case Idle => true
  }

  /** `r` is the first mode at or after `m` that can run. */
  ghost predicate FirstRunnable(c: Config, m: Mode, peer: int, r: Mode) {
    && Rank(r) <= Rank(m) && CanRun(c, r, peer)
    && forall x: Mode :: Rank(r) < Rank(x) <= Rank(m) ==> !CanRun(c, x, peer)
  }

  /** `r` is the first mode after `m` that can run. */
  ghost predicate NextRunnable(c: Config, m: Mode, peer: int, r: Mode) {
    && Rank(r) < Rank(m) && CanRun(c, r, peer)
    && forall x: Mode :: Rank(r) < Rank(x) < Rank(m) ==> !CanRun(c, x, peer)
  }

  /** The peer that a start knows. */
  function PeerOf(s: State, w: World): int {
    if s.handler then w.peer else 0
  }

  // ---------- what the code does ----------

  predicate AsksForPeer(c: Config, m: Mode) {
    (c.directed && m == Directed) || (c.directedSlow && m == Directed) || (c.directedSlow && m == DirectedSlow)
  }

  /** The peer address after the request, if there is anyone to ask. */
  function PeerAddress(s: State, m: Mode, w: World): int {
    if AsksForPeer(s.config, m) && s.handler then w.peer else 0
  }

  /** The chain of tests that skips disabled modes. */
  function Cascade(c: Config, m: Mode, peer: int): Mode {
    var m1 := if m == Directed && (!c.directed || peer == 0) then DirectedSlow else m;
    var m2 := if m1 == DirectedSlow && (!c.directedSlow || peer == 0) then Fast else m1;
    var m3 := if m2 == Fast && !c.fast then Slow else m2;
    if m3 == Slow && !c.slow then Idle else m3
  }

  predicate AsksForWhitelist(s: State, m: Mode) {
    s.handler && (m == Fast || m == Slow) && s.config.whitelist && !s.whitelistOff
  }

  /** Whether there are whitelist entries once the application has been asked. */
  function EntriesAfter(s: State, m: Mode, w: World): bool {
    if AsksForWhitelist(s, m) && w.whitelist.Some? then w.whitelist.value else s.entries
  }

  function Requests(s: State, asked: Mode, m: Mode): seq<AdvEvt> {
    if !s.handler then []
    else (if AsksForPeer(s.config, asked) then [PeerAddrRequest] else [])
         + (if AsksForWhitelist(s, m) then [WhitelistRequest] else [])
  }

  /** The mode is chosen and the application has been asked what it needs. */
  function Prepared(s: State, m: Mode, w: World): State {
    var r := Cascade(s.config, m, PeerAddress(s, m, w));
    s.(mode := r, entries := EntriesAfter(s, r, w), told := s.told + Requests(s, m, r),
       evt := if r == Idle && m != Idle then EvtIdle else s.evt)
  }

  predicate UsesWhitelist(s: State) {
    (s.mode == Fast || s.mode == Slow) && s.entries && s.config.whitelist && !s.whitelistOff
  }

  /** The event of the mode that starts. Reaching idle through the chain is an event too, but
      a request for idle itself repeats the previous event. */
  function EventOf(s: State): AdvEvt {
    match s.mode
    case Directed => EvtDirected
    case DirectedSlow => EvtDirectedSlow
    case Fast => if UsesWhitelist(s) then EvtFastWhitelist else EvtFast
    case Slow => if UsesWhitelist(s) then EvtSlowWhitelist else EvtSlow
    case Idle => s.evt
  }

  /** A refused start ends here, with nothing on the air. */
  function Launched(s: State, w: World): (State, int) {
    if UsesWhitelist(s) && w.advdata != SUCCESS then (s, w.advdata)
    else
      (s.(evt := EventOf(s), onAir := if s.mode == Idle then s.onAir else Some(s.mode),
          told := s.told + if s.handler then [EventOf(s)] else []), SUCCESS)
  }

  function Started(s: State, m: Mode, w: World): (State, int) {
    if w.flash then (s.(mode := m, pending := true), SUCCESS) else Launched(Prepared(s, m, w), w)
  }

  /** A start inside the module hands a refusal to the error handler. */
  function StartedInside(s: State, m: Mode, w: World): State {
    var (t, code) := Started(s, m, w);
    if code != SUCCESS && s.errorHandler then t.(reported := s.reported + [code]) else t
  }

  /** An advertising timeout; from slow mode only the idle event follows. */
  function TimedOut(s: State, w: World): State {
    match s.mode
    case Directed => StartedInside(s, DirectedSlow, w)
    case DirectedSlow => StartedInside(s, Fast, w)
    case Fast => StartedInside(s.(evt := EvtFast), Slow, w)
    case Slow => s.(evt := EvtIdle, told := if s.handler then s.told + [EvtIdle] else s.told)
    case Idle => s
  }

  function FlashFinished(s: State, w: World): State {
    if s.pending then StartedInside(s.(pending := false), s.mode, w) else s
  }

  /** A dropped connection switches the whitelist on again; the module's own one starts
      directed advertising. */
  function LinkLost(s: State, conn: int, w: World): State {
    var t := s.(whitelistOff := false);
    if conn == s.link then StartedInside(t, Directed, w) else t
  }

  /** `stop` is the code of stopping what is on the air. */
  function RestartedWithoutWhitelist(s: State, stop: int, w: World): (State, int) {
    if !s.config.whitelist || s.whitelistOff then (s, SUCCESS)
    else if s.mode != Idle && stop != SUCCESS then (s, stop)
    else if w.advdata != SUCCESS then (s.(whitelistOff := true), w.advdata)
    else (StartedInside(s.(whitelistOff := true), s.mode, w), SUCCESS)
  }

  // ---------- results ----------

  /** The mode an event announces. */
  function Announced(e: AdvEvt): Option<Mode> {
    match e
    case EvtIdle => Some(Idle)
    case EvtDirected => Some(Directed)
    case EvtDirectedSlow => Some(DirectedSlow)
    case EvtFast => Some(Fast)
    case EvtFastWhitelist => Some(Fast)
    case EvtSlow => Some(Slow)
    case EvtSlowWhitelist => Some(Slow)
    case PeerAddrRequest => None
    case WhitelistRequest => None
  }

  /** A start runs the first mode at or after the requested one that can run, which is
      unique. It fails iff that mode uses the whitelist and the advertising data is refused;
      otherwise exactly that mode is handed to the SoftDevice and announced last. */
  lemma StartRunsFirst(s: State, m: Mode, w: World)
    requires !w.flash
    ensures var peer := if s.handler then w.peer else 0;
            var (s', code) := Started(s, m, w);
            && FirstRunnable(s.config, m, peer, s'.mode)
            && (forall r :: FirstRunnable(s.config, m, peer, r) ==> r == s'.mode)
            && s' == s.(mode := s'.mode, evt := s'.evt, entries := s'.entries, onAir := s'.onAir, told := s'.told)
            && (code != SUCCESS ==> code == w.advdata)
            && (code != SUCCESS <==> UsesWhitelist(s') && w.advdata != SUCCESS)
            && s'.onAir == (if s'.mode == Idle || code != SUCCESS then s.onAir else Some(s'.mode))
            && s.told <= s'.told
            && (code == SUCCESS && s.handler && m != Idle ==>
                  s'.told != [] && Announced(s'.told[|s'.told| - 1]) == Some(s'.mode))
  {
    FirstIsCascade(s, m, w);
    StartAnnounces(s, m, w);
  }

  lemma StartAnnounces(s: State, m: Mode, w: World)
    requires !w.flash
    ensures var (s', code) := Started(s, m, w);
            && s.told <= s'.told
            && (code == SUCCESS && s.handler && m != Idle ==>
                  s'.told != [] && Announced(s'.told[|s'.told| - 1]) == Some(s'.mode))
  {
    var p := Prepared(s, m, w);
    assert m != Idle ==> Announced(EventOf(p)) == Some(p.mode);
  }

  lemma FirstIsCascade(s: State, m: Mode, w: World)
    ensures var peer := if s.handler then w.peer else 0;
            var first := Cascade(s.config, m, PeerAddress(s, m, w));
            && FirstRunnable(s.config, m, peer, first)
            && (forall r :: FirstRunnable(s.config, m, peer, r) ==> r == first)
  {
    var peer := if s.handler then w.peer else 0;
    CascadeIsFirst(s.config, m, peer);
    assert Cascade(s.config, m, PeerAddress(s, m, w)) == Cascade(s.config, m, peer);
    forall r | FirstRunnable(s.config, m, peer, r)
      ensures r == Cascade(s.config, m, peer)
    {
      RankInjective(r, Cascade(s.config, m, peer));
    }
  }

  lemma RankInjective(a: Mode, b: Mode)
    ensures Rank(a) == Rank(b) ==> a == b
  {
  }

  lemma CascadeIsFirst(c: Config, m: Mode, peer: int)
    ensures FirstRunnable(c, m, peer, Cascade(c, m, peer))
  {
    var r := Cascade(c, m, peer);
    forall x: Mode | Rank(r) < Rank(x) <= Rank(m)
      ensures !CanRun(c, x, peer)
    {
      match x {
        case Directed =>
        case DirectedSlow =>
        case Fast =>
        case Slow =>
        case Idle =>
      }
    }
  }

  /** The idle event is the last thing the application was told. */
  predicate IdleTold(s: State) {
    s.told != [] && s.told[|s.told| - 1] == EvtIdle
  }

  /** Undisturbed timeouts go through the modes that can run, in order, to the idle event. */
  ghost predicate FallsToIdle(s: State, ws: seq<World>)
    decreases |ws|
  {
    ws != [] &&
    var t := TimedOut(s, ws[0]);
    || IdleTold(t)
    || (NextRunnable(s.config, s.mode, PeerOf(s, ws[0]), t.mode) && FallsToIdle(t, ws[1..]))
  }

  /** A start inside the module: what StartRunsFirst says, and a refusal is reported. */
  lemma InsideRunsFirst(s: State, m: Mode, w: World)
    requires !w.flash
    ensures var t := StartedInside(s, m, w);
            && FirstRunnable(s.config, m, PeerOf(s, w), t.mode)
            && t.config == s.config && t.handler == s.handler && t.whitelistOff == s.whitelistOff
            && var refused := UsesWhitelist(t) && w.advdata != SUCCESS;
               && t.reported == s.reported + (if refused && s.errorHandler then [w.advdata] else [])
               && t.onAir == (if t.mode == Idle || refused then s.onAir else Some(t.mode))
               && (!refused && s.handler && m != Idle ==> t.told != [] && Announced(t.told[|t.told| - 1]) == Some(t.mode))
  {
    StartRunsFirst(s, m, w);
  }

  lemma FirstBelowIsNext(c: Config, m: Mode, below: Mode, peer: int, r: Mode)
    requires Rank(m) == Rank(below) + 1 && FirstRunnable(c, below, peer, r)
    ensures NextRunnable(c, m, peer, r)
  {
  }

  /** The mode after `m`, before any is skipped. */
  function Below(m: Mode): (b: Mode)
    ensures m != Idle ==> Rank(b) == Rank(m) - 1
  {
    match m
    case Directed => DirectedSlow
    case DirectedSlow => Fast
    case Fast => Slow
    case Slow => Idle
    case Idle => Idle
  }

  /** A timeout goes to exactly the next mode that can run, hands it to the SoftDevice and
      announces it. In slow mode it changes nothing but raises the idle event. */
  lemma TimeoutMovesOn(s: State, w: World)
    requires !w.flash && s.mode != Idle
    ensures var t := TimedOut(s, w);
            if s.mode == Slow then t == s.(evt := EvtIdle, told := t.told) && (s.handler ==> IdleTold(t))
            else TimeoutGoesTo(s, w, t)
  {
    if s.mode != Slow {
      var before := if s.mode == Fast then s.(evt := EvtFast) else s;
      InsideRunsFirst(before, Below(s.mode), w);
      StartFallsTo(before, Below(s.mode), w);
      FirstBelowIsNext(s.config, s.mode, Below(s.mode), PeerOf(s, w), TimedOut(s, w).mode);
    }
  }

  ghost predicate TimeoutGoesTo(s: State, w: World, t: State) {
    var refused := UsesWhitelist(t) && w.advdata != SUCCESS;
    && NextRunnable(s.config, s.mode, PeerOf(s, w), t.mode)
    && t.config == s.config && t.handler == s.handler
    && t.onAir == (if t.mode == Idle || refused then s.onAir else Some(t.mode))
    && (t.mode == Idle ==> t.evt == EvtIdle)
    && (s.handler && !refused ==> t.told != [] && Announced(t.told[|t.told| - 1]) == Some(t.mode))
  }

  lemma AnnouncedIdle(t: State)
    requires t.told != [] && Announced(t.told[|t.told| - 1]) == Some(Idle)
    ensures IdleTold(t)
  {
  }

  /** A timeout during a flash operation puts nothing on the air and says nothing; the end of
      the operation then goes to the next mode that can run. */
  lemma DeferredTimeoutMovesOn(s: State, busy: World, done: World)
    requires busy.flash && !done.flash && s.mode != Idle && s.mode != Slow
    ensures TimedOut(s, busy).onAir == s.onAir && TimedOut(s, busy).told == s.told && TimedOut(s, busy).pending
    ensures NextRunnable(s.config, s.mode, PeerOf(s, done), FlashFinished(TimedOut(s, busy), done).mode)
  {
    var t := TimedOut(s, busy);
    assert t.mode == Below(s.mode) && t.pending && t.config == s.config && t.handler == s.handler;
    InsideRunsFirst(t.(pending := false), t.mode, done);
    FirstBelowIsNext(s.config, s.mode, t.mode, PeerOf(s, done), FlashFinished(t, done).mode);
  }

  /** A deferred start is made once: the end of a further flash operation changes nothing. */
  lemma DeferredStartIsMadeOnce(s: State, done: World, again: World)
    requires !done.flash
    ensures FlashFinished(FlashFinished(s, done), again) == FlashFinished(s, done)
  {
    if s.pending {
      StartRunsFirst(s.(pending := false), s.mode, done);
    }
  }

  // ---------- what the application is asked ----------

  /** What a start tells the application. */
  function Told(s: State, m: Mode, w: World): (es: seq<AdvEvt>)
    requires !w.flash
  {
    var t := Started(s, m, w).0;
    if s.told <= t.told then t.told[|s.told|..] else []
  }

  lemma ToldIs(s: State, m: Mode, w: World)
    requires !w.flash
    ensures var p := Prepared(s, m, w);
            Told(s, m, w) == Requests(s, m, p.mode)
              + if s.handler && !(UsesWhitelist(p) && w.advdata != SUCCESS) then [EventOf(p)] else []
  {
    var p := Prepared(s, m, w);
    var es := if s.handler && !(UsesWhitelist(p) && w.advdata != SUCCESS) then [EventOf(p)] else [];
    assert Started(s, m, w).0.told == s.told + (Requests(s, m, p.mode) + es);
  }

  predicate AskedFor(e: AdvEvt) {
    e == PeerAddrRequest || e == WhitelistRequest
  }

  /** The application is asked for the peer iff the start may still become a directed one, and
      for a whitelist iff the mode that runs could use one. */
  lemma AskedIff(s: State, m: Mode, w: World)
    requires !w.flash && !AskedFor(s.evt)
    ensures PeerAddrRequest in Told(s, m, w) <==>
            && s.handler
            && exists x: Mode :: (x == Directed || x == DirectedSlow) && Rank(x) <= Rank(m) && CanRun(s.config, x, 1)
    ensures WhitelistRequest in Told(s, m, w) <==>
            && s.handler && s.config.whitelist && !s.whitelistOff
            && (FirstRunnable(s.config, m, PeerOf(s, w), Fast) || FirstRunnable(s.config, m, PeerOf(s, w), Slow))
  {
    ToldIs(s, m, w);
    var p := Prepared(s, m, w);
    assert !AskedFor(EventOf(p));
    AskedInRequests(s, m, p.mode);
    FirstIsCascade(s, m, w);
    PeerAskedIff(s.config, m);
  }

  lemma AskedInRequests(s: State, m: Mode, r: Mode)
    ensures PeerAddrRequest in Requests(s, m, r) <==> s.handler && AsksForPeer(s.config, m)
    ensures WhitelistRequest in Requests(s, m, r) <==> AsksForWhitelist(s, r)
  {
  }

  lemma PeerAskedIff(c: Config, m: Mode)
    ensures AsksForPeer(c, m) <==>
            exists x: Mode :: (x == Directed || x == DirectedSlow) && Rank(x) <= Rank(m) && CanRun(c, x, 1)
  {
    if AsksForPeer(c, m) {
      var x := if m == Directed && c.directed then Directed else DirectedSlow;
      assert Rank(x) <= Rank(m) && CanRun(c, x, 1);
    }
  }

  predicate WhitelistEvent(e: AdvEvt) {
    e == EvtFastWhitelist || e == EvtSlowWhitelist
  }

  /** A start announces advertising with a whitelist iff the whitelist is enabled and not
      switched off, the mode is fast or slow, the advertising data is accepted, and the
      application has just replied with entries, or not replied and had entries before. */
  lemma WhitelistUsedIff(s: State, m: Mode, w: World)
    requires !w.flash && s.handler && m != Idle
    ensures (exists e :: e in Told(s, m, w) && WhitelistEvent(e)) <==>
            && s.config.whitelist && !s.whitelistOff && w.advdata == SUCCESS
            && (FirstRunnable(s.config, m, w.peer, Fast) || FirstRunnable(s.config, m, w.peer, Slow))
            && (w.whitelist == Some(true) || (w.whitelist == None && s.entries))
  {
    ToldWhitelistIff(s, m, w);
    FirstIsCascade(s, m, w);
  }

  lemma ToldWhitelistIff(s: State, m: Mode, w: World)
    requires !w.flash && s.handler && m != Idle
    ensures var p := Prepared(s, m, w);
            (exists e :: e in Told(s, m, w) && WhitelistEvent(e)) <==> UsesWhitelist(p) && w.advdata == SUCCESS
  {
    ToldIs(s, m, w);
    var p := Prepared(s, m, w);
    EventUsesWhitelistIff(p);
    NoEventInRequests(s, m, p.mode);
    if UsesWhitelist(p) && w.advdata == SUCCESS {
      assert EventOf(p) in Told(s, m, w);
    }
  }

  lemma EventUsesWhitelistIff(p: State)
    requires p.mode == Idle ==> p.evt == EvtIdle
    ensures WhitelistEvent(EventOf(p)) <==> UsesWhitelist(p)
  {
  }

  lemma NoEventInRequests(s: State, m: Mode, r: Mode)
    ensures forall e :: e in Requests(s, m, r) ==> !WhitelistEvent(e)
  {
  }

  // ---------- without the whitelist ----------

  /** Restarting without the whitelist switches it off until a connection drops: no start in
      between announces it, and after the drop a reply with entries brings it back. */
  lemma WhitelistComesBack(s: State, stop: int, w: World, conn: int, w': World, m: Mode, w'': World)
    requires s.config.whitelist && s.handler && w.advdata == SUCCESS && (s.mode == Idle || stop == SUCCESS)
    requires !w''.flash && m != Idle
    ensures var off := RestartedWithoutWhitelist(s, stop, w).0;
            && off.whitelistOff
            && (forall e :: e in Told(off, m, w'') ==> !WhitelistEvent(e))
            && var on := LinkLost(off, conn, w');
               && !on.whitelistOff
               && (w''.whitelist == Some(true) && w''.advdata == SUCCESS && FirstRunnable(s.config, m, w''.peer, Fast) ==>
                     exists e :: e in Told(on, m, w'') && WhitelistEvent(e))
  {
    var off := RestartedWithoutWhitelist(s, stop, w).0;
    InsideKeeps(s.(whitelistOff := true), s.mode, w);
    WhitelistUsedIff(off, m, w'');
    InsideKeeps(off.(whitelistOff := false), Directed, w');
    WhitelistUsedIff(LinkLost(off, conn, w'), m, w'');
  }

  lemma InsideKeeps(s: State, m: Mode, w: World)
    ensures var t := StartedInside(s, m, w);
            && t.config == s.config && t.handler == s.handler && t.whitelistOff == s.whitelistOff && t.link == s.link
            && (!AskedFor(s.evt) ==> !AskedFor(t.evt))
  {
    var p := Prepared(s, m, w);
    assert !AskedFor(p.evt) ==> !AskedFor(EventOf(p));
  }

  /** A request for idle mode repeats the event before it; after a timeout of fast
      advertising whose start is put off that is the fast event. */
  lemma IdleRepeats(s: State, busy: World, w: World)
    requires s.handler && busy.flash && !w.flash
    ensures Told(s, Idle, w) == [s.evt]
    ensures s.mode == Fast ==> Told(TimedOut(s, busy), Idle, w) == [EvtFast]
  {
    ToldIs(s, Idle, w);
    if s.mode == Fast {
      ToldIs(TimedOut(s, busy), Idle, w);
    }
  }

  /** The module's own dropped connection starts directed advertising, any other none. */
  lemma LinkLostStarts(s: State, conn: int, w: World)
    requires !w.flash
    ensures var t := LinkLost(s, conn, w);
            && !t.whitelistOff
            && if conn == s.link then FirstRunnable(s.config, Directed, PeerOf(s, w), t.mode)
               else t.mode == s.mode && t.onAir == s.onAir && t.told == s.told
  {
    if conn == s.link {
      InsideRunsFirst(s.(whitelistOff := false), Directed, w);
    }
  }

  /** A restart that the SoftDevice refuses to prepare leaves advertising as it was. */
  lemma RefusedRestart(s: State, stop: int, w: World)
    requires RestartedWithoutWhitelist(s, stop, w).1 != SUCCESS
    ensures var (t, code) := RestartedWithoutWhitelist(s, stop, w);
            && t.mode == s.mode && t.onAir == s.onAir && t.told == s.told
            && s.config.whitelist && !s.whitelistOff
            && (t.whitelistOff <==> s.mode == Idle || stop == SUCCESS)
            && code == if s.mode != Idle && stop != SUCCESS then stop else w.advdata
  {
  }

  /** A start goes to the requested mode or below, and tells when it ends in idle. */
  lemma StartFallsTo(s: State, m: Mode, w: World)
    requires !w.flash && m != Idle
    ensures var t := StartedInside(s, m, w);
            && Rank(t.mode) <= Rank(m)
            && (t.mode == Idle ==> t.evt == EvtIdle)
            && (s.handler && t.mode == Idle ==> IdleTold(t))
  {
    var p := Prepared(s, m, w);
    assert Rank(p.mode) <= Rank(m);
  }

  /** Without start requests and flash operations, at most as many timeouts as the rank of
      the mode, and so at most four, lead to the idle event. */
  lemma {:induction false} TimeoutsReachIdle(s: State, ws: seq<World>)
    requires s.mode != Idle && s.handler
    requires |ws| >= Rank(s.mode) && forall w :: w in ws ==> !w.flash
    ensures FallsToIdle(s, ws[..Rank(s.mode)]) && Rank(s.mode) <= 4
    decreases |ws|
  {
    var t := TimedOut(s, ws[0]);
    assert ws[0] in ws;
    TimeoutMovesOn(s, ws[0]);
    var used := ws[..Rank(s.mode)];
    assert used[0] == ws[0];
    if t.mode == Idle {
      AnnouncedIdle(t);
    } else if !IdleTold(t) {
      TimeoutsReachIdle(t, ws[1..]);
      MoreTimeouts(t, ws[1..][..Rank(t.mode)], used[1..]);
    }
  }

  lemma {:induction false} MoreTimeouts(s: State, ws: seq<World>, more: seq<World>)
    requires FallsToIdle(s, ws) && ws <= more
    ensures FallsToIdle(s, more)
    decreases |ws|
  {
    assert ws[0] == more[0];
    if !IdleTold(TimedOut(s, ws[0])) {
      MoreTimeouts(TimedOut(s, ws[0]), ws[1..], more[1..]);
    }
  }

  /** Starts requested while flash operations are queued. */
  function Deferred(s: State, ms: seq<Mode>, w: World): State
    decreases |ms|
  {
    if ms == [] then s else Deferred(Started(s, ms[0], w).0, ms[1..], w)
  }

  /** Deferral. However many starts flash defers, the end of the flash operations leads to
      exactly the state an immediate start of the last one would have led to. */
  lemma {:induction false} DeferredStartIsLast(s: State, ms: seq<Mode>, busy: World, done: World)
    requires ms != [] && busy.flash && !done.flash
    ensures FlashFinished(Deferred(s, ms, busy), done) == StartedInside(s.(pending := false), ms[|ms| - 1], done)
    decreases |ms|
  {
    var s' := Started(s, ms[0], busy).0;
    if |ms| > 1 {
      DeferredStartIsLast(s', ms[1..], busy, done);
      assert s'.(pending := false) == s.(pending := false, mode := ms[0]);
      StartIgnoresMode(s.(pending := false), ms[0], ms[|ms| - 1], done);
    } else {
      assert ms[1..] == [];
      StartIgnoresMode(s.(pending := false), ms[0], ms[0], done);
    }
  }

  lemma StartIgnoresMode(s: State, was: Mode, m: Mode, w: World)
    requires !w.flash
    ensures StartedInside(s.(mode := was), m, w) == StartedInside(s, m, w)
  {
    assert Prepared(s.(mode := was), m, w) == Prepared(s, m, w);
  }

  // ---------- the stateful code ----------

  class Advertising {
    const config: Config
    const handler: bool
    const errorHandler: bool
    var mode: Mode
    var evt: AdvEvt
    var pending: bool
    var whitelistOff: bool
    var entries: bool
    var peerAddress: int
    var link: int
    var onAir: Option<Mode>
    var told: seq<AdvEvt>
    var reported: seq<int>

    ghost function Snapshot(): State
      reads this
    {
      State(config, handler, errorHandler, mode, evt, pending, whitelistOff, entries, link, onAir, told, reported)
    }

    constructor (c: Config, h: bool, eh: bool)
      ensures Snapshot() == State(c, h, eh, Idle, EvtIdle, false, false, false, NO_LINK, None, [], [])
    {
      config, handler, errorHandler := c, h, eh;
      mode, evt, pending, whitelistOff, entries, peerAddress := Idle, EvtIdle, false, false, false, 0;
      link, onAir, told, reported := NO_LINK, None, [], [];
    }

    method Tell(e: AdvEvt)
      modifies this`told
      ensures told == old(told) + (if handler then [e] else [])
    {
      if handler {
        told := told + [e];
      }
    }

    /** A start that flash does not defer runs the first mode that can run. */
    method Start(m: Mode, w: World) returns (code: int)
      modifies this
      ensures (Snapshot(), code) == Started(old(Snapshot()), m, w)
      ensures !w.flash ==>
                && FirstRunnable(config, m, if handler then w.peer else 0, mode)
                && onAir == (if mode == Idle || code != SUCCESS then old(onAir) else Some(mode))
    {
      if !w.flash {
        StartRunsFirst(Snapshot(), m, w);
      }
      mode := m;
      if w.flash {
        pending := true;
        return SUCCESS;
      }
      Prepare(w);
      code := Launch(w);
    }

    /** The part of a start before the advertising parameters are set. */
    method Prepare(w: World)
      modifies this
      ensures Snapshot() == Prepared(old(Snapshot()), old(mode), w)
    {
      FetchPeerAddress(w);
      SkipDisabledModes();
      FetchWhitelist(w);
      assert told == old(told) + Requests(old(Snapshot()), old(mode), mode);
    }

    method FetchPeerAddress(w: World)
      modifies this`peerAddress, this`told
      ensures peerAddress == PeerAddress(old(Snapshot()), mode, w)
      ensures told == old(told) + (if handler && AsksForPeer(config, mode) then [PeerAddrRequest] else [])
    {
      peerAddress := 0;
      if (config.directed && mode == Directed) || (config.directedSlow && mode == Directed)
         || (config.directedSlow && mode == DirectedSlow) {
        Tell(PeerAddrRequest);
        if handler {
          peerAddress := w.peer;
        }
      }
    }

    method SkipDisabledModes()
      modifies this`mode, this`evt
      ensures mode == Cascade(config, old(mode), peerAddress)
      ensures evt == if mode == Idle && old(mode) != Idle then EvtIdle else old(evt)
    {
      if mode == Directed && (!config.directed || peerAddress == 0) {
        mode := DirectedSlow;
      }
      if mode == DirectedSlow && (!config.directedSlow || peerAddress == 0) {
        mode := Fast;
      }
      if !config.fast && mode == Fast {
        mode := Slow;
      }
      if !config.slow && mode == Slow {
        mode := Idle;
        evt := EvtIdle;
      }
    }

    method FetchWhitelist(w: World)
      modifies this`entries, this`told
      ensures entries == EntriesAfter(old(Snapshot()), mode, w)
      ensures told == old(told) + (if AsksForWhitelist(old(Snapshot()), mode) then [WhitelistRequest] else [])
    {
      if handler && (mode == Fast || mode == Slow) && config.whitelist && !whitelistOff {
        Tell(WhitelistRequest);
        if w.whitelist.Some? {
          entries := w.whitelist.value;
        }
      }
    }

    /** The switch on the mode, the start and the event. */
    method Launch(w: World) returns (code: int)
      modifies this`evt, this`onAir, this`told
      ensures (Snapshot(), code) == Launched(old(Snapshot()), w)
    {
      if (mode == Fast || mode == Slow) && entries && config.whitelist && !whitelistOff {
        if w.advdata != SUCCESS {
          return w.advdata;
        }
        evt := if mode == Fast then EvtFastWhitelist else EvtSlowWhitelist;
      } else {
        match mode {
          case Directed => evt := EvtDirected;
          case DirectedSlow => evt := EvtDirectedSlow;
          case Fast => evt := EvtFast;
          case Slow => evt := EvtSlow;
          case Idle =>
        }
      }
      if mode != Idle {
        onAir := Some(mode);
      }
      Tell(evt);
      return SUCCESS;
    }

    method StartInside(m: Mode, w: World)
      modifies this
      ensures Snapshot() == StartedInside(old(Snapshot()), m, w)
    {
      var code := Start(m, w);
      if code != SUCCESS && errorHandler {
        reported := reported + [code];
      }
    }

    /** Each timeout moves on towards the idle event. */
    method OnTimeout(w: World)
      modifies this
      ensures Snapshot() == TimedOut(old(Snapshot()), w)
      ensures !w.flash && old(mode) != Idle && old(mode) != Slow ==>
                && NextRunnable(config, old(mode), if handler then w.peer else 0, mode)
                && TimeoutGoesTo(old(Snapshot()), w, Snapshot())
      ensures old(mode) == Slow ==> mode == Slow && onAir == old(onAir) && (handler ==> IdleTold(Snapshot()))
    {
      if !w.flash && mode != Idle {
        TimeoutMovesOn(Snapshot(), w);
      }
      match mode {
        case Directed => StartInside(DirectedSlow, w);
        case DirectedSlow => StartInside(Fast, w);
        case Fast =>
          evt := EvtFast;
          StartInside(Slow, w);
        case Slow =>
          evt := EvtIdle;
          Tell(evt);
        case Idle =>
      }
    }

    method OnSysEvt(w: World)
      modifies this
      ensures Snapshot() == FlashFinished(old(Snapshot()), w)
      ensures !w.flash ==> !pending
      ensures !w.flash && old(pending) ==> FirstRunnable(config, old(mode), if handler then w.peer else 0, mode)
    {
      if pending && !w.flash {
        InsideRunsFirst(Snapshot().(pending := false), mode, w);
        StartRunsFirst(Snapshot().(pending := false), mode, w);
      }
      if pending {
        pending := false;
        StartInside(mode, w);
      }
    }

    method OnConnected(conn: int, peripheral: bool)
      modifies this`link
      ensures link == if peripheral then conn else old(link)
    {
      if peripheral {
        link := conn;
      }
    }

    method OnDisconnected(conn: int, w: World)
      modifies this
      ensures Snapshot() == LinkLost(old(Snapshot()), conn, w)
      ensures !whitelistOff
      ensures !w.flash && conn == old(link) ==> FirstRunnable(config, Directed, if handler then w.peer else 0, mode)
    {
      if !w.flash {
        LinkLostStarts(Snapshot(), conn, w);
      }
      InsideKeeps(Snapshot().(whitelistOff := false), Directed, w);
      whitelistOff := false;
      if conn == link {
        StartInside(Directed, w);
      }
    }

    method RestartWithoutWhitelist(stop: int, w: World) returns (code: int)
      modifies this
      ensures (Snapshot(), code) == RestartedWithoutWhitelist(old(Snapshot()), stop, w)
    {
      if config.whitelist && !whitelistOff {
        if mode != Idle {
          if stop != SUCCESS {
            return stop;
          }
        }
        whitelistOff := true;
        if w.advdata != SUCCESS {
          return w.advdata;
        }
        StartInside(mode, w);
      }
      return SUCCESS;
    }
  }

  /** Starts that flash defers on the stateful code: the last one is made when flash is done. */
  method DeferAll(a: Advertising, ms: seq<Mode>, busy: World, done: World)
    requires ms != [] && busy.flash && !done.flash
    modifies a
    ensures a.Snapshot() == StartedInside(old(a.Snapshot()).(pending := false), ms[|ms| - 1], done)
  {
    ghost var s := a.Snapshot();
    var i := 0;
    while i < |ms|
      invariant 0 <= i <= |ms| && Deferred(a.Snapshot(), ms[i..], busy) == Deferred(s, ms, busy)
    {
      assert ms[i..][0] == ms[i] && ms[i..][1..] == ms[i + 1..];
      var _ := a.Start(ms[i], busy);
      i := i + 1;
    }
    assert ms[i..] == [];
    DeferredStartIsLast(s, ms, busy, done);
    a.OnSysEvt(done);
  }
}
