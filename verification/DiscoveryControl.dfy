/** Registration, refused starts and disconnects: what surrounds a discovery. */
module DiscoveryControl {
  import opened Options
  import opened AttributeTable
  import opened DiscoveryModel
  import opened DiscoveryRuns
  import opened DiscoveryTheorems
  import opened DiscoveryRestart

  // ---------- registration ----------

  predicate Distinct(us: seq<Uuid>) {
    forall i, j :: 0 <= i < j < |us| ==> us[i] != us[j]
  }

  /** A registration succeeds iff the service is known or there is room. Then it is registered
      exactly once, behind the others; otherwise nothing changes. */
  lemma RegisterMeans(s: State, u: Uuid)
    requires Distinct(s.registered) && |s.registered| <= MAX_SERVICES
    ensures var (t, code) := Register(s, u);
            && (code == SUCCESS <==> u in s.registered || |s.registered| < MAX_SERVICES)
            && (code == SUCCESS ==> u in t.registered && Distinct(t.registered) && s.registered <= t.registered)
            && (forall v :: v in t.registered ==> v == u || v in s.registered)
            && (code != SUCCESS ==> code == ERROR_NO_MEM && t == s)
            && t == s.(registered := t.registered) && |t.registered| <= MAX_SERVICES
            && (u in s.registered ==> t == s)
  {
    if u !in s.registered && |s.registered| < MAX_SERVICES {
      assert (s.registered + [u])[|s.registered|] == u;
    }
  }

  function RegisterAll(s: State, us: seq<Uuid>): State {
    if us == [] then s else Register(RegisterAll(s, us[..|us| - 1]), us[|us| - 1]).0
  }

  /** The services of a list without repetitions, in the order of their first mention. */
  function Mentioned(us: seq<Uuid>): seq<Uuid> {
    if us == [] then []
    else
      var before, u := Mentioned(us[..|us| - 1]), us[|us| - 1];
      if u in before then before else before + [u]
  }

  function FirstSix(us: seq<Uuid>): seq<Uuid> {
    if |us| <= MAX_SERVICES then us else us[..MAX_SERVICES]
  }

  /** Over any sequence of registrations the first six services mentioned are registered. */
  lemma {:induction false} FirstSixAreRegistered(s: State, us: seq<Uuid>)
    requires s.registered == []
    ensures RegisterAll(s, us) == s.(registered := FirstSix(Mentioned(us)))
    decreases |us|
  {
    if us != [] {
      FirstSixAreRegistered(s, us[..|us| - 1]);
      var before, u := Mentioned(us[..|us| - 1]), us[|us| - 1];
      if u !in before && |before| >= MAX_SERVICES {
        assert FirstSix(before + [u]) == FirstSix(before);
      }
    }
  }

  // ---------- starts ----------

  /** A start is refused without services, and while a discovery is in progress, which goes on
      undisturbed; otherwise the SoftDevice decides. */
  lemma StartMeans(s: State, conn: int, sd: int)
    requires s.Valid()
    ensures var (t, code) := Start(s, conn, sd);
            && (s.registered == [] ==> code == ERROR_INVALID_STATE && t == s)
            && (s.registered != [] && s.inProgress ==> code == ERROR_BUSY && t == s)
            && (s.registered != [] && !s.inProgress ==> code == sd && t.conn == conn && t.delivered == s.delivered)
            && (s.registered != [] && !s.inProgress && sd == SUCCESS ==>
                  t.inProgress && t.request == Some(FindService(s.registered[0])) && t.count == t.index == t.currSrv == 0)
            && (s.registered != [] && !s.inProgress && sd != SUCCESS ==> !t.inProgress && t.request == s.request)
            && t.Valid()
  {
  }

  /** A start that the SoftDevice refused leaves no trace in a later one. */
  lemma RefusedStartIsHarmless(s: State, conn: int, sd: int, conn': int)
    requires s.Valid() && !s.inProgress && sd != SUCCESS
    ensures Start(s, conn, sd).0.Valid()
    ensures Start(Start(s, conn, sd).0, conn', SUCCESS) == Start(s, conn', SUCCESS)
  {
    if s.registered != [] {
      var t := Start(s, conn, sd).0;
      assert t.services[0 := t.services[0].(uuid := s.registered[0])]
          == s.services[0 := s.services[0].(uuid := s.registered[0])];
    }
  }

  // ---------- disconnects ----------

  /** Losing its connection ends a discovery silently, and the next start on any connection
      asks for the first service; losing another connection does not concern it, and neither
      do the responses on one. */
  lemma DisconnectFrees(s: State, conn: int, reply: Reply, sd: int, next: int)
    requires s.Valid() && s.registered != []
    ensures var t := OnEvent(s, Disconnected(s.conn), sd);
            && !t.inProgress && t.request == None && t.delivered == s.delivered && t.Valid()
            && var (u, code) := Start(t, next, SUCCESS);
               code == SUCCESS && u.inProgress && u.conn == next && u.request == Some(FindService(s.registered[0]))
    ensures conn != s.conn ==>
              OnEvent(s, Disconnected(conn), sd) == s && OnEvent(s, Response(conn, reply), sd) == s
    ensures OnEvent(s, OtherEvt, sd) == s
  {
  }

  /** A discovery after one that was cut off is right on every server iff the first service
      had not been searched, and the index of a later one not been moved. */
  lemma RightAfterDisconnectIff(t: Table, exact: bool, s: State, next: int)
    requires Inv(t, exact, s) && s.inProgress
    ensures var cut := OnEvent(s, Disconnected(s.conn), SUCCESS);
            cut.Valid() && (AlwaysRight(cut, next) <==> s.currChar == 0 && s.services[0].charCount == 0)
  {
    var cut := OnEvent(s, Disconnected(s.conn), SUCCESS);
    assert Stopped(cut);
    RestartIsRightIff(cut, next);
  }

  // ---------- the mark of the end ----------

  /** If `r` has ended the discovery, its first slot says so. */
  predicate EndMarked(r: State, conn: int) {
    !r.inProgress ==> r.slots != [] && r.slots[0].Event? && r.slots[0].kind == Available && r.slots[0].conn == conn
  }

  lemma FinishMarks(s: State, found: bool, sd: int)
    requires s.Valid() && s.inProgress
    ensures EndMarked(Finish(s, found, s.conn, sd), s.conn)
  {
  }

  lemma DescsMark(s: State, sd: int)
    requires s.Valid() && s.inProgress && s.currChar <= s.Current().charCount
    ensures EndMarked(DescsDiscover(s, s.conn, sd), s.conn)
  {
    var k := NextGap(s.Current(), s.currChar);
    if k == s.Current().charCount {
      FinishMarks(s.(currChar := if s.currChar + 1 == s.Current().charCount then s.currChar else k), true, sd);
    }
  }

  lemma CharsMark(s: State, cs: seq<Characteristic>, sd: int)
    requires s.Valid() && s.inProgress && 1 <= |cs| < 0x100
    ensures EndMarked(OnChars(s, s.conn, Some(cs), sd), s.conn)
  {
    var stored := s.SetCurrent(Store(s.Current(), cs));
    DescsMark(stored.(currChar := 0), sd);
  }

  lemma AfterDescsMark(s: State, sd: int)
    requires s.Valid() && s.inProgress && s.currChar < s.Current().charCount
    ensures EndMarked(AfterDescs(s, s.conn, sd), s.conn)
  {
    if s.currChar + 1 == s.Current().charCount {
      FinishMarks(s, true, sd);
    } else {
      DescsMark(s.(currChar := s.currChar + 1), sd);
    }
  }

  lemma DescsReplyMarks(s: State, ds: Option<seq<Attribute>>, sd: int)
    requires s.Valid() && s.inProgress && s.currChar < s.Current().charCount
    ensures EndMarked(OnDescs(s, s.conn, ds, sd), s.conn)
  {
    AfterDescsMark(if ds.Some? then s.SetCurrent(WithCccd(s.Current(), s.currChar, ds.value)) else s, sd);
  }

  /** Whatever response ends a discovery, the last or one whose request is refused, leaves the
      first slot marked as available again on its connection; a disconnect leaves the slots. */
  lemma EndIsMarked(s: State, reply: Reply, sd: int)
    requires Ready(s, reply)
    ensures EndMarked(OnEvent(s, Response(s.conn, reply), sd), s.conn)
    ensures OnEvent(s, Disconnected(s.conn), sd).slots == s.slots
  {
    match reply
    case Services(found) =>
      if found.None? {
        FinishMarks(s, false, sd);
      }
    case Chars(found) =>
      if found.None? {
        DescsMark(s.(currChar := 0), sd);
      } else {
        CharsMark(s, found.value, sd);
      }
    case Descs(found) => DescsReplyMarks(s, found, sd);
  }

  // ---------- services nobody registered ----------

  /** A service under an identifier that is not registered gets no event and takes no place in
      the queue. */
  lemma UnregisteredGetsNoEvent(s: State, found: bool, conn: int, code: int)
    requires s.Valid() && s.Current().uuid !in s.registered
    ensures QueueEvent(s, found, conn) == s
    ensures ErrorExit(s, conn, code).delivered == s.delivered && !ErrorExit(s, conn, code).inProgress
  {
  }
}
