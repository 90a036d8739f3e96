/** Whole discoveries against a server table, however the server splits its responses. */
module DiscoveryRuns {
  import opened Options
  import opened AttributeTable
  import opened DiscoveryModel

  // ---------- the reference: one pass over the table ----------

  /** Collect at most MAX_CHARS characteristics of `r` in one pass over the table. */
  function OnePass(t: Table, r: Range): seq<DbChar> {
    if t == [] then []
    else if t[0].DeclIn(r) then OnePassOpen(t[1..], r, Opened(t[0]), MAX_CHARS - 1)
    else OnePass(t[1..], r)
  }

  function Opened(a: Attribute): DbChar
    requires a.CharDecl?
  {
    DbChar(Characteristic(a.uuid, a.handle, a.value), 0)
  }

  /** The pass with an open entry `cur` and room for `room` more: a declaration closes the
      entry and opens the next, the first configuration descriptor after the entry's value
      belongs to it. */
  function OnePassOpen(t: Table, r: Range, cur: DbChar, room: nat): seq<DbChar> {
    if t == [] then [cur]
    else if t[0].DeclIn(r) && room > 0 then [cur] + OnePassOpen(t[1..], r, Opened(t[0]), room - 1)
    else if t[0].IsCccd() && cur.chr.value < t[0].handle <= r.end && cur.cccd == 0 then
      OnePassOpen(t[1..], r, cur.(cccd := t[0].handle), room)
    else OnePassOpen(t[1..], r, cur, room)
  }

  function Cap(cs: seq<Characteristic>): (m: nat) {
    if |cs| <= MAX_CHARS then |cs| else MAX_CHARS
  }

  /** The handles that may hold descriptors of the i-th of `m` stored characteristics. */
  function SpecGap(cs: seq<Characteristic>, end: int, m: nat, i: nat): Range
    requires i < m <= |cs|
  {
    Range(cs[i].value + 1, if i == m - 1 then end else cs[i + 1].decl - 1)
  }

  /** What a finished service must hold: the one-pass result, except that without
      `exact` a descriptor may have been missed. */
  ghost predicate CccdOk(t: Table, exact: bool, gap: Range, cccd: int) {
    cccd == FirstCccd(AttrsIn(t, gap)) || (!exact && cccd == 0)
  }

  /** `c` holds the first characteristics of `r`, with descriptors settled below `done`. */
  ghost predicate Holds(t: Table, exact: bool, r: Range, c: Service, done: nat) {
    && c.Valid() && c.range == r && c.charCount <= |CharsIn(t, r)|
    && (forall i {:trigger c.chars[i]} :: 0 <= i < c.charCount ==> c.chars[i].chr == CharsIn(t, r)[i])
    && (forall i {:trigger c.chars[i]} :: 0 <= i < c.charCount ==>
          if i < done then CccdOk(t, exact, SpecGap(CharsIn(t, r), r.end, c.charCount, i), c.chars[i].cccd)
          else c.chars[i].cccd == 0)
  }

  ghost predicate Full(t: Table, exact: bool, u: Uuid, c: Service, done: nat) {
    && ServicesOf(t, u) != []
    && c.uuid == u
    && var r := ServicesOf(t, u)[0].range;
       Holds(t, exact, r, c, done) && c.charCount == Cap(CharsIn(t, r))
  }

  /** The event a registered service must get. */
  ghost predicate Good(t: Table, exact: bool, u: Uuid, conn: int, e: Event) {
    && e.Event? && e.conn == conn
    && if ServicesOf(t, u) == [] then e.kind == NotFound && e.db.uuid == u
       else e.kind == Complete && Full(t, exact, u, e.db, e.db.charCount)
  }

  // ---------- the environment ----------

  /** A success response is a non-empty prefix of the matching entries, an error response
      means there are none. `exact` asks that a descriptor response reach the first
      configuration descriptor of the requested range. */
  ghost predicate Answers(t: Table, exact: bool, req: Request, reply: Reply) {
    match req
    case FindService(u) =>
      reply.Services? && (
        match reply.found
        case None => ServicesOf(t, u) == []
        case Some(fs) => fs != [] && fs <= ServicesOf(t, u))
    case FindChars(r) =>
      reply.Chars? && (
        match reply.chars
        case None => CharsIn(t, r) == []
        case Some(cs) => 1 <= |cs| < 0x100 && cs <= CharsIn(t, r))
    case FindDescs(r) =>
      reply.Descs? && (
        match reply.descs
        case None => AttrsIn(t, r) == []
        case Some(ds) => ds != [] && ds <= AttrsIn(t, r) && (exact ==> FirstCccd(ds) == FirstCccd(AttrsIn(t, r))))
  }

  // ---------- the invariant ----------

  ghost predicate Base(t: Table, exact: bool, s: State) {
    && s.Valid() && s.inProgress && s.delivered == []
    && s.index == s.count == s.currSrv < |s.registered|
    && (forall j :: 0 <= j < s.count ==> Good(t, exact, s.registered[j], s.conn, s.slots[j]))
  }

  ghost predicate Phase(t: Table, exact: bool, s: State)
    requires s.request.Some? && s.currSrv < |s.services| && s.currSrv < |s.registered|
  {
    var c := s.Current();
    var u := s.registered[s.currSrv];
    c.uuid == u &&
    match s.request.value
    case FindService(v) => v == u && c.charCount == 0 && s.currChar == 0
    case FindChars(q) =>
      && ServicesOf(t, u) != []
      && var r := ServicesOf(t, u)[0].range;
         && Holds(t, exact, r, c, 0)
         && s.currChar == c.charCount < MAX_CHARS
         && q == Range(if c.charCount == 0 then r.start else CharsIn(t, r)[c.charCount - 1].value + 1, r.end)
         && q.start <= q.end
    case FindDescs(q) =>
      && Full(t, exact, u, c, s.currChar)
      && s.currChar < c.charCount
      && q == SpecGap(CharsIn(t, c.range), c.range.end, c.charCount, s.currChar)
      && q.start <= q.end
  }

  ghost predicate Inv(t: Table, exact: bool, s: State) {
    s.Valid() &&
    if s.inProgress then Base(t, exact, s) && s.request.Some? && Phase(t, exact, s)
    else
      s.request.None? && AllGood(t, exact, s.registered, s.conn, s.delivered) && Emptied(s)
  }

  /** The queue of events is empty and marked as available. */
  predicate Emptied(s: State) {
    s.index == 0 && s.slots != [] && s.slots[0].Event? && s.slots[0].kind == Available && s.slots[0].conn == s.conn
  }

  /** Exactly one event per registered service, in registration order. */
  ghost predicate AllGood(t: Table, exact: bool, registered: seq<Uuid>, conn: int, es: seq<Event>) {
    && |es| == |registered|
    && forall j :: 0 <= j < |registered| ==> Good(t, exact, registered[j], conn, es[j])
  }

  // ---------- one step ----------

  /** What the handlers may index with. An answer to the outstanding request always
      meets it (AnswersAreReady). */
  ghost predicate Ready(s: State, reply: Reply) {
    && s.Valid() && s.inProgress
    && match reply
       case Services(f) => f.Some? ==> f.value != []
       case Chars(c) => c.Some? ==> 1 <= |c.value| < 0x100
       case Descs(_) => s.currChar < s.Current().charCount
  }

  /** Hand a response to its handler; `sd` is what the SoftDevice says to the request that
      the handler issues. */
  ghost function StepWith(s: State, reply: Reply, sd: int): (r: State)
    ensures r.registered == s.registered && r.conn == s.conn
  {
    if !Ready(s, reply) then s
    else
      match reply
      case Services(f) => OnServices(s, s.conn, f, sd)
      case Chars(c) => OnChars(s, s.conn, c, sd)
      case Descs(d) => OnDescs(s, s.conn, d, sd)
  }

  ghost function Step(s: State, reply: Reply): State {
    StepWith(s, reply, SUCCESS)
  }

  /** Any event: responses on other connections do not concern the discovery. */
  ghost function OnEvent(s: State, evt: BleEvt, sd: int): State {
    match evt
    case Response(conn, reply) => if conn == s.conn then StepWith(s, reply, sd) else s
    case Disconnected(conn) => OnDisconnected(s, conn)
    case OtherEvt => s
  }

  lemma AnswersAreReady(t: Table, exact: bool, s: State, reply: Reply)
    requires Inv(t, exact, s) && s.inProgress && Answers(t, exact, s.request.value, reply)
    ensures Ready(s, reply)
  {
  }

  /** The current service was found and its first characteristics are stored, no descriptor yet. */
  ghost predicate Half(t: Table, exact: bool, s: State) {
    && Base(t, exact, s)
    && var u := s.registered[s.currSrv];
       && s.Current().uuid == u && ServicesOf(t, u) != []
       && Holds(t, exact, ServicesOf(t, u)[0].range, s.Current(), 0)
  }

  lemma FinishKeeps(t: Table, exact: bool, s: State, found: bool)
    requires Base(t, exact, s)
    requires found ==> Full(t, exact, s.registered[s.currSrv], s.Current(), s.Current().charCount)
    requires !found ==> ServicesOf(t, s.registered[s.currSrv]) == [] && s.Current().uuid == s.registered[s.currSrv]
    ensures Inv(t, exact, Finish(s, found, s.conn, SUCCESS))
  {
    QueueKeeps(t, exact, s, found);
    FinishIs(s, found);
    var q := QueueEvent(s, found, s.conn);
    if s.count + 1 < |s.registered| {
      NextKeeps(t, exact, s, q);
    } else {
      LastKeeps(t, exact, s, q);
    }
  }

  lemma LastKeeps(t: Table, exact: bool, s: State, q: State)
    requires s.Valid() && q == s.(slots := q.slots, index := q.index, delivered := q.delivered)
    requires |q.slots| == MAX_SERVICES && forall j :: 0 <= j < MAX_SERVICES ==> q.slots[j].Event?
    requires q.index == 0 && AllGood(t, exact, s.registered, s.conn, q.delivered)
    ensures Inv(t, exact, Closed(q))
  {
  }

  /** The state with the discovery over. */
  ghost function Closed(s: State): State
    requires s.slots != [] && s.slots[0].Event?
  {
    s.(count := s.count + 1, inProgress := false, request := None, slots := MarkAvailable(s.slots, s.conn))
  }

  /** The state with the next service opened. */
  ghost function Opening(s: State): State
    requires s.Valid() && s.currSrv + 1 < |s.registered|
  {
    var k := s.currSrv + 1;
    var u := s.registered[k];
    s.(count := s.count + 1, currChar := 0, currSrv := k,
       services := s.services[k := s.services[k].(uuid := u, charCount := 0)],
       request := Some(FindService(u)))
  }

  lemma FinishIs(s: State, found: bool)
    requires s.Valid() && s.inProgress
    ensures var q := QueueEvent(s, found, s.conn);
            && q == s.(slots := q.slots, index := q.index, delivered := q.delivered)
            && Finish(s, found, s.conn, SUCCESS) ==
               if s.count + 1 < |s.registered| then Opening(q)
               else Closed(q)
  {
  }

  lemma NextKeeps(t: Table, exact: bool, s: State, q: State)
    requires s.Valid() && s.inProgress && s.count + 1 < |s.registered|
    requires q == s.(slots := q.slots, index := s.count + 1, delivered := [])
    requires |q.slots| == MAX_SERVICES
    requires forall j :: 0 <= j <= s.count ==> Good(t, exact, s.registered[j], s.conn, q.slots[j])
    requires forall j :: 0 <= j < MAX_SERVICES ==> q.slots[j].Event?
    ensures Inv(t, exact, Opening(q))
  {
    var o := Opening(q);
    assert forall j :: 0 <= j < o.count ==> Good(t, exact, o.registered[j], o.conn, o.slots[j]);
  }

  /** The event queued for the current service is the one it must get. */
  lemma QueueKeeps(t: Table, exact: bool, s: State, found: bool)
    requires Base(t, exact, s)
    requires found ==> Full(t, exact, s.registered[s.currSrv], s.Current(), s.Current().charCount)
    requires !found ==> ServicesOf(t, s.registered[s.currSrv]) == [] && s.Current().uuid == s.registered[s.currSrv]
    ensures var q := QueueEvent(s, found, s.conn);
            && |q.slots| == MAX_SERVICES
            && (forall j :: 0 <= j <= s.count ==> Good(t, exact, s.registered[j], s.conn, q.slots[j]))
            && if s.count + 1 < |s.registered| then q.delivered == [] && q.index == s.count + 1
               else AllGood(t, exact, s.registered, s.conn, q.delivered)
  {
    var q := QueueEvent(s, found, s.conn);
    assert s.registered[s.currSrv] in s.registered;
    assert Good(t, exact, s.registered[s.currSrv], s.conn, q.slots[s.count]);
    assert forall j :: 0 <= j < s.count ==> q.slots[j] == s.slots[j];
  }

  /** A gap of stored characteristics is where the code computes it, without wrap-around. */
  lemma GapAgrees(t: Table, exact: bool, u: Uuid, c: Service, done: nat, i: nat)
    requires WellFormed(t) && Full(t, exact, u, c, done) && i < c.charCount
    ensures var g := SpecGap(CharsIn(t, c.range), c.range.end, c.charCount, i);
            (HasGap(c, i) <==> g.start <= g.end) && (HasGap(c, i) ==> Gap(c, i) == g)
  {
    ValueInside(t, u, i);
    if i + 1 < c.charCount {
      ValueInside(t, u, i + 1);
      InOrder(t, c.range, i);
    }
    GapIs(c, CharsIn(t, c.range), i);
  }

  lemma GapIs(c: Service, cs: seq<Characteristic>, i: nat)
    requires c.Valid() && i < c.charCount <= |cs| && c.chars[i].chr == cs[i]
    requires 0 <= cs[i].value <= c.range.end <= HANDLE_MAX
    requires i + 1 < c.charCount ==> c.chars[i + 1].chr == cs[i + 1] && cs[i].value < cs[i + 1].decl <= HANDLE_MAX
    ensures var g := SpecGap(cs, c.range.end, c.charCount, i);
            (HasGap(c, i) <==> g.start <= g.end) && (HasGap(c, i) ==> Gap(c, i) == g)
  {
  }

  lemma InOrder(t: Table, r: Range, i: nat)
    requires Laid(t) && i + 1 < |CharsIn(t, r)|
    ensures CharsIn(t, r)[i].value < CharsIn(t, r)[i + 1].decl
  {
    CharsFacts(t, r);
  }

  lemma ValueInside(t: Table, u: Uuid, i: nat)
    requires WellFormed(t) && ServicesOf(t, u) != []
    requires i < |CharsIn(t, ServicesOf(t, u)[0].range)|
    ensures var r := ServicesOf(t, u)[0].range;
            var c := CharsIn(t, r)[i];
            1 <= r.start <= c.decl < c.value <= r.end <= HANDLE_MAX
  {
    ServicesFacts(t, u);
    var f := ServicesOf(t, u)[0];
    assert f in ServicesOf(t, u);
    var a :| 0 <= a < |t| && t[a] == ServiceDecl(f.range.start, u, f.range.end);
    var c := CharsIn(t, f.range)[i];
    CharsFacts(t, f.range);
    assert c in CharsIn(t, f.range);
    var m :| 0 <= m < |t| && t[m] == CharDecl(c.decl, c.uuid, c.value);
    assert HandlesFit(t, a) && ValueInService(t, a, m);
    assert t[m].DeclIn(Range(t[a].handle, t[a].end));
  }

  lemma DescsDiscoverKeeps(t: Table, exact: bool, s: State)
    requires WellFormed(t) && Base(t, exact, s)
    requires Full(t, exact, s.registered[s.currSrv], s.Current(), s.currChar)
    requires s.currChar <= s.Current().charCount
    ensures Inv(t, exact, DescsDiscover(s, s.conn, SUCCESS))
  {
    var u := s.registered[s.currSrv];
    var c := s.Current();
    var k := NextGap(c, s.currChar);
    if k < c.charCount {
      GapAgrees(t, exact, u, c, s.currChar, k);
    }
    forall i | s.currChar <= i < k
      ensures CccdOk(t, exact, SpecGap(CharsIn(t, c.range), c.range.end, c.charCount, i), c.chars[i].cccd)
    {
      GapAgrees(t, exact, u, c, s.currChar, i);
      AttrsFacts(t, SpecGap(CharsIn(t, c.range), c.range.end, c.charCount, i));
    }
    assert Full(t, exact, u, c, k);
    if k == c.charCount {
      FinishKeeps(t, exact, Searched(s), true);
    }
    DescsIs(s);
  }

  /** The state after a descriptor search that found nothing to ask for. */
  ghost function Searched(s: State): State
    requires s.Valid() && s.currChar <= s.Current().charCount
  {
    s.(currChar := if s.currChar + 1 == s.Current().charCount then s.currChar else NextGap(s.Current(), s.currChar))
  }

  lemma DescsIs(s: State)
    requires s.Valid() && s.inProgress && s.currChar <= s.Current().charCount
    ensures var k := NextGap(s.Current(), s.currChar);
            DescsDiscover(s, s.conn, SUCCESS) ==
            if k < s.Current().charCount then s.(currChar := k, request := Some(FindDescs(Gap(s.Current(), k))))
            else Finish(Searched(s), true, s.conn, SUCCESS)
  {
  }

  lemma OnServicesKeeps(t: Table, exact: bool, s: State, reply: Reply)
    requires WellFormed(t) && Inv(t, exact, s) && s.inProgress && s.request.value.FindService?
    requires Answers(t, exact, s.request.value, reply)
    ensures Inv(t, exact, Step(s, reply))
  {
    var u := s.registered[s.currSrv];
    if reply.found.None? {
      FinishKeeps(t, exact, s, false);
    } else {
      var f := ServicesOf(t, u)[0];
      assert reply.found.value[0] == f;
      ServiceRange(t, u);
    }
  }

  lemma ServiceRange(t: Table, u: Uuid)
    requires WellFormed(t) && ServicesOf(t, u) != []
    ensures var f := ServicesOf(t, u)[0];
            f.uuid == u && 1 <= f.range.start <= f.range.end <= HANDLE_MAX
  {
    ServicesFacts(t, u);
    var f := ServicesOf(t, u)[0];
    assert f in ServicesOf(t, u);
    var i :| 0 <= i < |t| && t[i] == ServiceDecl(f.range.start, u, f.range.end);
    assert HandlesFit(t, i);
  }

  lemma OnCharsKeeps(t: Table, exact: bool, s: State, reply: Reply)
    requires WellFormed(t) && Inv(t, exact, s) && s.inProgress && s.request.value.FindChars?
    requires Answers(t, exact, s.request.value, reply)
    ensures Inv(t, exact, Step(s, reply))
  {
    RemainingChars(t, exact, s);
    SearchingIsHalf(t, exact, s);
    if reply.chars.None? {
      DescsDiscoverKeeps(t, exact, s.(currChar := 0));
    } else {
      StoreExtends(t, exact, s.Current().range, s.Current(), reply.chars.value);
      StoredKeeps(t, exact, s.SetCurrent(Store(s.Current(), reply.chars.value)));
    }
    OnCharsIs(s, reply.chars);
  }

  lemma OnCharsIs(s: State, chars: Option<seq<Characteristic>>)
    requires s.Valid() && s.inProgress && (chars.Some? ==> 1 <= |chars.value| < 0x100)
    ensures OnChars(s, s.conn, chars, SUCCESS) ==
            if chars.None? then DescsDiscover(s.(currChar := 0), s.conn, SUCCESS)
            else AfterStore(s.SetCurrent(Store(s.Current(), chars.value)), s.conn, SUCCESS)
  {
  }

  /** An outstanding characteristic request covers exactly what is still missing. */
  lemma RemainingChars(t: Table, exact: bool, s: State)
    requires WellFormed(t) && Base(t, exact, s) && s.request.Some? && Phase(t, exact, s)
    requires s.request.value.FindChars?
    ensures var cs := CharsIn(t, s.Current().range);
            && s.Current().charCount <= |cs|
            && CharsIn(t, s.request.value.range) == cs[s.Current().charCount..]
  {
    MissingChars(t, s.Current().range, s.Current().charCount);
  }

  lemma SearchingIsHalf(t: Table, exact: bool, s: State)
    requires Base(t, exact, s) && s.request.Some? && Phase(t, exact, s) && s.request.value.FindChars?
    ensures Half(t, exact, s) && s.Current().charCount < MAX_CHARS
  {
  }

  lemma MissingChars(t: Table, r: Range, k: nat)
    requires Laid(t) && k <= |CharsIn(t, r)|
    ensures var cs := CharsIn(t, r);
            CharsIn(t, Range(if k == 0 then r.start else cs[k - 1].value + 1, r.end)) == cs[k..]
  {
    if k > 0 {
      CharsAfter(t, r, k);
    }
  }

  /** After storing, the handler searches on or turns to descriptors. */
  lemma StoredKeeps(t: Table, exact: bool, s: State)
    requires WellFormed(t) && Half(t, exact, s) && s.Current().charCount > 0
    ensures Inv(t, exact, AfterStore(s, s.conn, SUCCESS))
  {
    var u := s.registered[s.currSrv];
    var d := s.Current();
    LastValue(t, u, d.charCount);
    if !(d.chars[d.charCount - 1].chr.value < d.range.end) || d.charCount == MAX_CHARS {
      assert Full(t, exact, u, d, 0);
      DescsDiscoverKeeps(t, exact, s.(currChar := 0));
    } else {
      CharsDiscoverKeeps(t, exact, s.(currChar := d.charCount));
    }
    AfterStoreIs(s);
  }

  lemma AfterStoreIs(s: State)
    requires s.Valid() && s.inProgress && s.Current().charCount > 0
    ensures var d := s.Current();
            AfterStore(s, s.conn, SUCCESS) ==
            if !(d.chars[d.charCount - 1].chr.value < d.range.end) || d.charCount == MAX_CHARS
            then DescsDiscover(s.(currChar := 0), s.conn, SUCCESS)
            else CharsDiscover(s.(currChar := d.charCount), s.conn, SUCCESS)
  {
  }

  /** When the last stored value is at the end of the service, nothing is left to find. */
  lemma LastValue(t: Table, u: Uuid, k: nat)
    requires WellFormed(t) && ServicesOf(t, u) != []
    requires 0 < k <= |CharsIn(t, ServicesOf(t, u)[0].range)|
    ensures var r := ServicesOf(t, u)[0].range;
            var v := CharsIn(t, r)[k - 1].value;
            0 <= v <= r.end <= HANDLE_MAX && (v == r.end ==> k == |CharsIn(t, r)|)
  {
    var r := ServicesOf(t, u)[0].range;
    ValueInside(t, u, k - 1);
    if k < |CharsIn(t, r)| {
      InOrder(t, r, k - 1);
      ValueInside(t, u, k);
    }
  }

  lemma CharsDiscoverKeeps(t: Table, exact: bool, s: State)
    requires Half(t, exact, s)
    requires var d := s.Current();
             && 0 < d.charCount == s.currChar < MAX_CHARS
             && 0 <= d.chars[d.charCount - 1].chr.value < d.range.end <= HANDLE_MAX
    ensures Inv(t, exact, CharsDiscover(s, s.conn, SUCCESS))
  {
    var d := s.Current();
    var q := Range(d.chars[d.charCount - 1].chr.value + 1, d.range.end);
    assert CharsDiscover(s, s.conn, SUCCESS) == s.(request := Some(FindChars(q)));
  }

  lemma StoreExtends(t: Table, exact: bool, r: Range, c: Service, added: seq<Characteristic>)
    requires Holds(t, exact, r, c, 0) && c.charCount < MAX_CHARS
    requires 1 <= |added| < 0x100 && added <= CharsIn(t, r)[c.charCount..]
    ensures Holds(t, exact, r, Store(c, added), 0)
    ensures c.charCount < Store(c, added).charCount
  {
    forall i | 0 <= i < Store(c, added).charCount
      ensures Store(c, added).chars[i] == DbChar(CharsIn(t, r)[i], 0)
    {
      StoreAt(c, added, i);
      if c.charCount <= i {
        assert added[i - c.charCount] == CharsIn(t, r)[c.charCount..][i - c.charCount];
      }
    }
  }

  /** Storing keeps the old entries and appends the new characteristics. */
  lemma StoreAt(c: Service, added: seq<Characteristic>, i: nat)
    requires c.Valid() && 1 <= |added| < 0x100 && i < Store(c, added).charCount
    ensures i < c.charCount ==> Store(c, added).chars[i] == c.chars[i]
    ensures c.charCount <= i ==> i - c.charCount < |added| && Store(c, added).chars[i] == DbChar(added[i - c.charCount], 0)
  {
  }

  lemma OnDescsKeeps(t: Table, exact: bool, s: State, reply: Reply)
    requires WellFormed(t) && Inv(t, exact, s) && s.inProgress && s.request.value.FindDescs?
    requires Answers(t, exact, s.request.value, reply)
    ensures Inv(t, exact, Step(s, reply))
  {
    ShownIsOk(t, exact, s.request.value.range, reply.descs);
    DescsSettle(t, exact, s, reply.descs);
    AfterDescsKeeps(t, exact, Settled(s, reply.descs));
    StepIsAfterDescs(s, reply);
  }

  /** The state once a descriptor response is stored. */
  ghost function Settled(s: State, descs: Option<seq<Attribute>>): (r: State)
    requires s.Valid() && s.currChar < s.Current().charCount
    ensures r.conn == s.conn
  {
    if descs.Some? then s.SetCurrent(WithCccd(s.Current(), s.currChar, descs.value)) else s
  }

  lemma StepIsAfterDescs(s: State, reply: Reply)
    requires Ready(s, reply) && reply.Descs?
    ensures Step(s, reply) == AfterDescs(Settled(s, reply.descs), s.conn, SUCCESS)
  {
  }

  /** What a descriptor response shows. */
  ghost function Shown(descs: Option<seq<Attribute>>): int {
    if descs.Some? then FirstCccd(descs.value) else 0
  }

  /** A descriptor response shows the first configuration descriptor of the gap or none. */
  lemma CccdSeen(t: Table, gap: Range, ds: seq<Attribute>)
    requires WellFormed(t) && ds <= AttrsIn(t, gap)
    ensures (exists d :: d in ds && d.IsCccd()) <==> FirstCccd(ds) != 0
    ensures FirstCccd(ds) == 0 || FirstCccd(ds) == FirstCccd(AttrsIn(t, gap))
  {
    HandlesPositive(t);
    AttrsFacts(t, gap);
    assert forall a :: a in ds ==> a in AttrsIn(t, gap);
    FirstCccdIsFirst(ds);
    CccdOfPrefix(ds, AttrsIn(t, gap));
  }

  lemma ShownIsOk(t: Table, exact: bool, gap: Range, descs: Option<seq<Attribute>>)
    requires WellFormed(t) && Answers(t, exact, FindDescs(gap), Descs(descs))
    ensures CccdOk(t, exact, gap, Shown(descs))
    ensures descs.Some? ==> ((exists d :: d in descs.value && d.IsCccd()) <==> Shown(descs) != 0)
  {
    if descs.Some? {
      CccdSeen(t, gap, descs.value);
    }
  }

  /** Storing what a descriptor response showed settles the current characteristic. */
  lemma DescsSettle(t: Table, exact: bool, s: State, descs: Option<seq<Attribute>>)
    requires Base(t, exact, s) && s.request.Some? && Phase(t, exact, s) && s.request.value.FindDescs?
    requires descs.Some? ==> ((exists d :: d in descs.value && d.IsCccd()) <==> Shown(descs) != 0)
    requires CccdOk(t, exact, s.request.value.range, Shown(descs))
    ensures Base(t, exact, Settled(s, descs))
    ensures Full(t, exact, s.registered[s.currSrv], Settled(s, descs).Current(), s.currChar + 1)
  {
    var c, d := s.Current(), Settled(s, descs).Current();
    assert d.chars[s.currChar].cccd == Shown(descs);
    assert forall i :: 0 <= i < c.charCount && i != s.currChar ==> d.chars[i] == c.chars[i];
  }

  lemma AfterDescsKeeps(t: Table, exact: bool, s: State)
    requires WellFormed(t) && Base(t, exact, s)
    requires s.currChar < s.Current().charCount
    requires Full(t, exact, s.registered[s.currSrv], s.Current(), s.currChar + 1)
    ensures Inv(t, exact, AfterDescs(s, s.conn, SUCCESS))
  {
    if s.currChar + 1 == s.Current().charCount {
      FinishKeeps(t, exact, s, true);
    } else {
      DescsDiscoverKeeps(t, exact, s.(currChar := s.currChar + 1));
    }
    AfterDescsIs(s, s.conn, SUCCESS);
  }

  lemma AfterDescsIs(s: State, conn: int, sd: int)
    requires s.Valid() && s.inProgress && s.currChar < s.Current().charCount
    ensures AfterDescs(s, conn, sd) ==
            if s.currChar + 1 == s.Current().charCount then Finish(s, true, conn, sd)
            else DescsDiscover(s.(currChar := s.currChar + 1), conn, sd)
  {
    if s.currChar + 1 == s.Current().charCount {
      assert AfterDescs(s, conn, sd) == Finish(s, true, conn, sd);
    } else {
      assert AfterDescs(s, conn, sd) == DescsDiscover(s.(currChar := s.currChar + 1), conn, sd);
    }
  }

  lemma StepKeeps(t: Table, exact: bool, s: State, reply: Reply)
    requires WellFormed(t) && Inv(t, exact, s) && s.inProgress
    requires Answers(t, exact, s.request.value, reply)
    ensures Inv(t, exact, Step(s, reply))
  {
    match s.request.value
    case FindService(_) => OnServicesKeeps(t, exact, s, reply);
    case FindChars(_) => OnCharsKeeps(t, exact, s, reply);
    case FindDescs(_) => OnDescsKeeps(t, exact, s, reply);
  }

  // ---------- progress ----------

  const STEPS_PER_SERVICE: nat := 2 * MAX_CHARS + 2

  /** How many responses the current service can still take. */
  ghost function Local(s: State): int
    requires s.request.Some? && s.currSrv < |s.services|
  {
    match s.request.value
    case FindService(_) => STEPS_PER_SERVICE
    case FindChars(_) => STEPS_PER_SERVICE - 1 - s.Current().charCount
    case FindDescs(_) => MAX_CHARS - s.currChar
  }

  /** How many responses the whole discovery can still take. */
  ghost function Work(s: State): int {
    if !s.inProgress || s.request.None? || s.currSrv >= |s.services| then 0
    else (|s.registered| - s.currSrv - 1) * STEPS_PER_SERVICE + Local(s)
  }

  ghost function Later(s: State): int {
    (|s.registered| - s.currSrv - 1) * STEPS_PER_SERVICE
  }

  lemma FinishWork(s: State, found: bool)
    requires s.Valid() && s.inProgress
    ensures var s' := Finish(s, found, s.conn, SUCCESS);
            0 <= Work(s') <= Later(s)
  {
    FinishIs(s, found);
    LaterServices(|s.registered| - s.currSrv - 1);
  }

  lemma LaterServices(n: int)
    ensures n >= 1 ==> n * STEPS_PER_SERVICE == (n - 1) * STEPS_PER_SERVICE + STEPS_PER_SERVICE
    ensures n >= 0 ==> n * STEPS_PER_SERVICE >= 0
  {
  }

  lemma DescsWork(s: State)
    requires s.Valid() && s.inProgress && s.currChar <= s.Current().charCount
    ensures var s' := DescsDiscover(s, s.conn, SUCCESS);
            0 <= Work(s') <= Later(s) + MAX_CHARS - s.currChar
  {
    DescsIs(s);
    var k := NextGap(s.Current(), s.currChar);
    if k == s.Current().charCount {
      FinishWork(Searched(s), true);
    } else {
      AskingWork(s, k, Gap(s.Current(), k));
    }
  }

  lemma AskingWork(s: State, k: nat, q: Range)
    requires s.Valid() && s.inProgress && s.currChar <= k < MAX_CHARS
    ensures 0 <= Work(s.(currChar := k, request := Some(FindDescs(q)))) <= Later(s) + MAX_CHARS - s.currChar
  {
    LaterServices(|s.registered| - s.currSrv - 1);
  }

  lemma ServicesWork(s: State, f: Option<seq<FoundService>>)
    requires s.Valid() && s.inProgress && (f.Some? ==> f.value != []) && s.Current().charCount == 0
    ensures var s' := OnServices(s, s.conn, f, SUCCESS);
            0 <= Work(s') < Later(s) + STEPS_PER_SERVICE
  {
    if f.None? {
      FinishWork(s, false);
    }
  }

  lemma CharsWork(s: State, cs: Option<seq<Characteristic>>)
    requires s.Valid() && s.inProgress && (cs.Some? ==> 1 <= |cs.value| < 0x100) && s.Current().charCount < MAX_CHARS
    ensures var s' := OnChars(s, s.conn, cs, SUCCESS);
            0 <= Work(s') < Later(s) + STEPS_PER_SERVICE - 1 - s.Current().charCount
  {
    if cs.None? {
      DescsWork(s.(currChar := 0));
    } else {
      AfterStoreWork(s.SetCurrent(Store(s.Current(), cs.value)));
    }
    OnCharsIs(s, cs);
  }

  lemma AfterStoreWork(s: State)
    requires s.Valid() && s.inProgress && s.Current().charCount > 0
    ensures var s' := AfterStore(s, s.conn, SUCCESS);
            0 <= Work(s') <= Later(s) + STEPS_PER_SERVICE - 1 - s.Current().charCount
  {
    DescsWork(s.(currChar := 0));
    AfterStoreIs(s);
  }

  lemma DescsReplyWork(s: State, ds: Option<seq<Attribute>>)
    requires s.Valid() && s.inProgress && s.currChar < s.Current().charCount
    ensures var s' := OnDescs(s, s.conn, ds, SUCCESS);
            0 <= Work(s') < Later(s) + MAX_CHARS - s.currChar
  {
    AfterDescsWork(if ds.Some? then s.SetCurrent(WithCccd(s.Current(), s.currChar, ds.value)) else s);
  }

  lemma AfterDescsWork(s: State)
    requires s.Valid() && s.inProgress && s.currChar < s.Current().charCount
    ensures var s' := AfterDescs(s, s.conn, SUCCESS);
            0 <= Work(s') < Later(s) + MAX_CHARS - s.currChar
  {
    if s.currChar + 1 == s.Current().charCount {
      FinishWork(s, true);
    } else {
      DescsWork(s.(currChar := s.currChar + 1));
    }
    AfterDescsIs(s, s.conn, SUCCESS);
  }

  /** Every accepted response brings the discovery closer to its end. */
  lemma WorkDecreases(t: Table, exact: bool, s: State, reply: Reply)
    requires Inv(t, exact, s) && s.inProgress
    requires Answers(t, exact, s.request.value, reply)
    ensures 0 <= Work(Step(s, reply)) < Work(s)
  {
    match reply
    case Services(f) => ServicesWork(s, f);
    case Chars(c) => CharsWork(s, c);
    case Descs(d) => DescsReplyWork(s, d);
  }
}
