/** What a finished discovery delivers, stated against the one-pass reference, and how it
    gets there. */
module DiscoveryTheorems {
  import opened Options
  import opened AttributeTable
  import opened DiscoveryModel
  import opened DiscoveryRuns

  // ---------- the one-pass reference agrees with the ranges the client asks for ----------

  /** The gap after `c` when `cs` are the entries that follow it. */
  function GapBefore(c: Characteristic, cs: seq<Characteristic>, end: int): Range {
    Range(c.value + 1, if cs == [] then end else cs[0].decl - 1)
  }

  /** Each characteristic with the first configuration descriptor of its gap. */
  function Entries(t: Table, end: int, cs: seq<Characteristic>): seq<DbChar> {
    if cs == [] then []
    else [DbChar(cs[0], FirstCccd(AttrsIn(t, GapBefore(cs[0], cs[1..], end))))] + Entries(t, end, cs[1..])
  }

  function Take(cs: seq<Characteristic>, n: nat): seq<Characteristic> {
    if |cs| <= n then cs else cs[..n]
  }

  lemma LaterDecls(t: Table, r: Range)
    requires Laid(t) && t != []
    ensures forall c :: c in CharsIn(t[1..], r) ==> t[0].handle < c.decl < c.value && c.decl <= r.end
  {
    LaidTail(t);
    CharsFacts(t[1..], r);
    forall c | c in CharsIn(t[1..], r)
      ensures t[0].handle < c.decl
    {
      var i :| 0 <= i < |t[1..]| && t[1..][i] == CharDecl(c.decl, c.uuid, c.value);
      assert t[i + 1] == t[1..][i];
      assert Before(t, 0, i + 1);
    }
  }

  lemma FirstCccdCons(a: Attribute, ds: seq<Attribute>)
    ensures FirstCccd([a] + ds) == if a.IsCccd() then a.handle else FirstCccd(ds)
  {
    assert ([a] + ds)[1..] == ds;
  }

  /** Handles below a gap do not contribute to it. */
  lemma SkipHead(t: Table, g: Range)
    requires t != []
    ensures FirstCccd(AttrsIn(t, g)) ==
            if t[0].In(g) && t[0].IsCccd() then t[0].handle else FirstCccd(AttrsIn(t[1..], g))
  {
    if t[0].In(g) {
      FirstCccdCons(t[0], AttrsIn(t[1..], g));
    } else {
      assert AttrsIn(t, g) == AttrsIn(t[1..], g);
    }
  }

  /** Attributes before the first value of `cs` contribute to none of its entries. */
  lemma {:induction false} EntriesSkipHead(t: Table, end: int, cs: seq<Characteristic>)
    requires t != []
    requires forall c :: c in cs ==> t[0].handle < c.value
    ensures Entries(t, end, cs) == Entries(t[1..], end, cs)
  {
    if cs != [] {
      SkipHead(t, GapBefore(cs[0], cs[1..], end));
      EntriesSkipHead(t, end, cs[1..]);
    }
  }

  lemma {:induction false} NothingBefore(t: Table, lo: int, hi: int)
    requires Laid(t)
    requires t != [] ==> hi < t[0].handle
    ensures AttrsIn(t, Range(lo, hi)) == []
  {
    if t != [] {
      LaidTail(t);
      assert |t| > 1 ==> Before(t, 0, 1);
      NothingBefore(t[1..], lo, hi);
    }
  }

  lemma TakeSubset(cs: seq<Characteristic>, n: nat)
    ensures forall c :: c in Take(cs, n) ==> c in cs
  {
  }

  /** The pass with an open entry. */
  lemma {:induction false} OnePassOpenMeaning(t: Table, r: Range, cur: DbChar, room: nat)
    requires Laid(t) && forall a :: a in t ==> a.handle >= 1
    ensures var cs := Take(CharsIn(t, r), room);
            var gap := GapBefore(cur.chr, cs, r.end);
            OnePassOpen(t, r, cur, room)
            == [if cur.cccd != 0 then cur else cur.(cccd := FirstCccd(AttrsIn(t, gap)))] + Entries(t, r.end, cs)
    decreases |t|, 0
  {
    if t != [] {
      LaidTail(t);
      LaterDecls(t, r);
      var cs := Take(CharsIn(t, r), room);
      var gap := GapBefore(cur.chr, cs, r.end);
      if t[0].DeclIn(r) && room > 0 {
        OnePassOpened(t, r, room - 1);
        assert cs == [Opened(t[0]).chr] + Take(CharsIn(t[1..], r), room - 1);
        NothingBefore(t, gap.start, gap.end);
      } else {
        var cur' := if t[0].IsCccd() && cur.chr.value < t[0].handle <= r.end && cur.cccd == 0
                    then cur.(cccd := t[0].handle) else cur;
        assert cs == Take(CharsIn(t[1..], r), room);
        OnePassOpenMeaning(t[1..], r, cur', room);
        TakeSubset(CharsIn(t[1..], r), room);
        EntriesSkipHead(t, r.end, cs);
        HeadOfGap(t, r, cur.chr, cs);
      }
    }
  }

  /** A declaration at the head of the table opens the first of the remaining entries. */
  lemma OnePassOpened(t: Table, r: Range, room: nat)
    requires Laid(t) && forall a :: a in t ==> a.handle >= 1
    requires t != [] && t[0].DeclIn(r)
    ensures var cs := [Opened(t[0]).chr] + Take(CharsIn(t[1..], r), room);
            OnePassOpen(t[1..], r, Opened(t[0]), room) == Entries(t, r.end, cs)
    decreases |t[1..]|, 1
  {
    var rest := Take(CharsIn(t[1..], r), room);
    var cs := [Opened(t[0]).chr] + rest;
    LaidTail(t);
    LaterDecls(t, r);
    TakeSubset(CharsIn(t[1..], r), room);
    OnePassOpenMeaning(t[1..], r, Opened(t[0]), room);
    assert cs[1..] == rest;
    assert ValueFollows(t, 0) && Before(t, 0, 1);
    assert t[0].handle < t[0].value;
    EntriesSkipHead(t, r.end, cs);
  }

  /** An attribute that opens no entry counts for the open one iff it is a configuration
      descriptor after its value. */
  lemma HeadOfGap(t: Table, r: Range, c: Characteristic, cs: seq<Characteristic>)
    requires Laid(t) && t != []
    requires forall d :: d in cs ==> d in CharsIn(t[1..], r)
    ensures var gap := GapBefore(c, cs, r.end);
            FirstCccd(AttrsIn(t, gap)) ==
            if t[0].IsCccd() && c.value < t[0].handle <= r.end then t[0].handle else FirstCccd(AttrsIn(t[1..], gap))
  {
    LaterDecls(t, r);
    SkipHead(t, GapBefore(c, cs, r.end));
    assert cs != [] ==> cs[0] in cs;
  }

  /** The pass collects the first characteristics of the range, each with the first
      configuration descriptor of its gap. */
  lemma {:induction false} OnePassMeaning(t: Table, r: Range)
    requires Laid(t) && forall a :: a in t ==> a.handle >= 1
    ensures OnePass(t, r) == Entries(t, r.end, Take(CharsIn(t, r), MAX_CHARS))
  {
    if t != [] {
      LaidTail(t);
      LaterDecls(t, r);
      var cs := Take(CharsIn(t, r), MAX_CHARS);
      if t[0].DeclIn(r) {
        OnePassOpened(t, r, MAX_CHARS - 1);
        assert cs == [Opened(t[0]).chr] + Take(CharsIn(t[1..], r), MAX_CHARS - 1);
      } else {
        OnePassMeaning(t[1..], r);
        assert CharsIn(t, r) == CharsIn(t[1..], r);
        TakeSubset(CharsIn(t[1..], r), MAX_CHARS);
        EntriesSkipHead(t, r.end, cs);
      }
    }
  }

  lemma {:induction false} EntriesLength(t: Table, end: int, cs: seq<Characteristic>)
    ensures |Entries(t, end, cs)| == |cs|
  {
    if cs != [] {
      EntriesLength(t, end, cs[1..]);
    }
  }

  lemma {:induction false} EntryAt(t: Table, end: int, cs: seq<Characteristic>, i: nat)
    requires i < |cs| == |Entries(t, end, cs)|
    ensures Entries(t, end, cs)[i] == DbChar(cs[i], FirstCccd(AttrsIn(t, SpecGap(cs, end, |cs|, i))))
  {
    if |cs| > 1 {
      EntriesLength(t, end, cs[1..]);
      EntryAt(t, end, cs[1..], if i == 0 then 0 else i - 1);
    }
  }

  /** A service filled by a client that missed no descriptor is the one-pass result. */
  lemma FullIsOnePass(t: Table, u: Uuid, c: Service)
    requires WellFormed(t) && Full(t, true, u, c, c.charCount)
    ensures c.Stored() == OnePass(t, c.range)
  {
    var cs := CharsIn(t, c.range);
    var taken := Take(cs, MAX_CHARS);
    HandlesPositive(t);
    OnePassMeaning(t, c.range);
    EntriesLength(t, c.range.end, taken);
    forall i | 0 <= i < c.charCount
      ensures c.chars[i] == Entries(t, c.range.end, taken)[i]
    {
      EntryAt(t, c.range.end, taken, i);
      FullEntry(t, u, c, i);
    }
  }

  lemma FullEntry(t: Table, u: Uuid, c: Service, i: nat)
    requires Full(t, true, u, c, c.charCount) && i < c.charCount
    ensures var taken := Take(CharsIn(t, c.range), MAX_CHARS);
            && |taken| == c.charCount
            && c.chars[i] == DbChar(taken[i], FirstCccd(AttrsIn(t, SpecGap(taken, c.range.end, |taken|, i))))
  {
    var cs := CharsIn(t, c.range);
    var taken := Take(cs, MAX_CHARS);
    assert SpecGap(taken, c.range.end, |taken|, i) == SpecGap(cs, c.range.end, c.charCount, i);
  }

  // ---------- whole runs ----------

  /** The zero-initialised structure the header asks for, with services registered. */
  ghost predicate Zeroed(s: State) {
    && s.Valid() && s.registered != [] && !s.inProgress && s.request.None?
    && s.currChar == 0 && s.services[0].charCount == 0 && s.delivered == []
  }

  /** The server answers every request until the discovery ends. */
  ghost predicate Run(t: Table, exact: bool, s: State, replies: seq<Reply>)
    decreases |replies|
  {
    replies != [] ==>
    && s.inProgress && s.request.Some?
    && Answers(t, exact, s.request.value, replies[0])
    && Run(t, exact, Step(s, replies[0]), replies[1..])
  }

  ghost function Exec(s: State, replies: seq<Reply>): State
    decreases |replies|
  {
    if replies == [] then s else Exec(Step(s, replies[0]), replies[1..])
  }

  lemma {:induction false} RunKeeps(t: Table, exact: bool, s: State, replies: seq<Reply>)
    requires WellFormed(t) && Inv(t, exact, s) && Run(t, exact, s, replies) && 0 <= Work(s)
    ensures Inv(t, exact, Exec(s, replies))
    ensures Exec(s, replies).registered == s.registered && Exec(s, replies).conn == s.conn
    ensures 0 <= Work(Exec(s, replies)) <= Work(s) - |replies|
    decreases |replies|
  {
    if replies != [] {
      StepKeeps(t, exact, s, replies[0]);
      WorkDecreases(t, exact, s, replies[0]);
      RunKeeps(t, exact, Step(s, replies[0]), replies[1..]);
    }
  }

  lemma StartInv(t: Table, exact: bool, s: State, conn: int)
    requires Zeroed(s)
    ensures var s' := Start(s, conn, SUCCESS).0;
            && Inv(t, exact, s') && s'.inProgress && s'.registered == s.registered && s'.conn == conn
            && 0 <= Work(s') == |s.registered| * STEPS_PER_SERVICE
  {
    LaterServices(|s.registered|);
  }

  lemma CanAnswer(t: Table, exact: bool, s: State)
    requires Inv(t, exact, s) && s.inProgress
    ensures exists reply :: Answers(t, exact, s.request.value, reply)
  {
    CanAnswerRequest(t, exact, s.request.value);
  }

  lemma CanAnswerRequest(t: Table, exact: bool, req: Request)
    ensures exists reply :: Answers(t, exact, req, reply)
  {
    match req
    case FindService(u) =>
      assert Answers(t, exact, req, Services(if ServicesOf(t, u) == [] then None else Some(ServicesOf(t, u))));
    case FindChars(r) =>
      assert Answers(t, exact, req, Chars(if CharsIn(t, r) == [] then None else Some(CharsIn(t, r)[..1])));
    case FindDescs(r) =>
      assert Answers(t, exact, req, Descs(if AttrsIn(t, r) == [] then None else Some(AttrsIn(t, r))));
  }

  ghost function Final(s: State, conn: int, replies: seq<Reply>): State
    requires s.Valid()
  {
    Exec(Start(s, conn, SUCCESS).0, replies)
  }

  lemma FinalInv(t: Table, exact: bool, s: State, conn: int, replies: seq<Reply>)
    requires WellFormed(t) && Zeroed(s)
    requires Run(t, exact, Start(s, conn, SUCCESS).0, replies)
    ensures var e := Final(s, conn, replies);
            Inv(t, exact, e) && e.registered == s.registered && e.conn == conn
  {
    StartInv(t, exact, s, conn);
    RunKeeps(t, exact, Start(s, conn, SUCCESS).0, replies);
  }

  lemma RunsAreBounded(t: Table, exact: bool, s: State, conn: int, replies: seq<Reply>)
    requires WellFormed(t) && Zeroed(s)
    requires Run(t, exact, Start(s, conn, SUCCESS).0, replies)
    ensures |replies| <= |s.registered| * STEPS_PER_SERVICE
  {
    StartInv(t, exact, s, conn);
    var n := |s.registered| * STEPS_PER_SERVICE;
    RunTakesWork(t, exact, Start(s, conn, SUCCESS).0, replies, n);
  }

  lemma RunTakesWork(t: Table, exact: bool, s: State, replies: seq<Reply>, n: int)
    requires WellFormed(t) && Inv(t, exact, s) && Run(t, exact, s, replies) && 0 <= Work(s) <= n
    ensures |replies| <= n
  {
    RunKeeps(t, exact, s, replies);
  }

  /** Main result. However the server splits its responses, a discovery takes at most
      STEPS_PER_SERVICE responses per registered service, never gets stuck, tells the
      application nothing until it is over, and then delivers exactly one event per
      registered service, in registration order: COMPLETE with the first characteristics of
      the service iff the server has it. */
  lemma DiscoveryDelivers(t: Table, exact: bool, s: State, conn: int, replies: seq<Reply>)
    requires WellFormed(t) && Zeroed(s)
    requires Run(t, exact, Start(s, conn, SUCCESS).0, replies)
    ensures |replies| <= |s.registered| * STEPS_PER_SERVICE
    ensures var e := Final(s, conn, replies);
            if e.inProgress then e.delivered == [] && CanGoOn(t, exact, e)
            else AllGood(t, exact, s.registered, conn, e.delivered)
  {
    RunsAreBounded(t, exact, s, conn, replies);
    FinalInv(t, exact, s, conn, replies);
    var e := Final(s, conn, replies);
    if e.inProgress {
      CanAnswer(t, exact, e);
    }
  }

  ghost predicate CanGoOn(t: Table, exact: bool, s: State) {
    s.request.Some? && exists reply :: Answers(t, exact, s.request.value, reply)
  }

  /** What a refining client delivers for a registered service. */
  ghost predicate Refines(t: Table, u: Uuid, e: Event) {
    && e.Event?
    && var found := ServicesOf(t, u);
       if found == [] then e.kind == NotFound
       else && e.kind == Complete && e.db.uuid == u && e.db.range == found[0].range
            && e.db.Valid() && e.db.Stored() == OnePass(t, found[0].range)
  }

  /** Refinement. When descriptor responses reach the first configuration descriptor of the
      range asked for, each delivered service is exactly the one-pass reading of the table. */
  lemma DiscoveryRefinesOnePass(t: Table, s: State, conn: int, replies: seq<Reply>)
    requires WellFormed(t) && Zeroed(s)
    requires Run(t, true, Start(s, conn, SUCCESS).0, replies)
    requires !Final(s, conn, replies).inProgress
    ensures var es := Final(s, conn, replies).delivered;
            && |es| == |s.registered|
            && forall j :: 0 <= j < |s.registered| ==> Refines(t, s.registered[j], es[j])
  {
    DiscoveryDelivers(t, true, s, conn, replies);
    var es := Final(s, conn, replies).delivered;
    forall j | 0 <= j < |s.registered|
      ensures Refines(t, s.registered[j], es[j])
    {
      assert Good(t, true, s.registered[j], conn, es[j]);
      if ServicesOf(t, s.registered[j]) != [] {
        FullIsOnePass(t, s.registered[j], es[j].db);
      }
    }
  }

  // ---------- the ranges the client asks for ----------

  predicate Inside(q: Range, r: Range) {
    r.start <= q.start <= q.end <= r.end
  }

  /** No stored declaration or value handle lies in `q`. */
  predicate ClearOf(q: Range, c: Service)
    requires c.Valid()
  {
    forall i :: 0 <= i < c.charCount ==>
      !(q.start <= c.chars[i].chr.decl <= q.end) && !(q.start <= c.chars[i].chr.value <= q.end)
  }

  lemma GapIsClear(t: Table, exact: bool, u: Uuid, c: Service, done: nat, i: nat)
    requires WellFormed(t) && Full(t, exact, u, c, done) && i < c.charCount
    ensures ClearOf(SpecGap(CharsIn(t, c.range), c.range.end, c.charCount, i), c)
    ensures SpecGap(CharsIn(t, c.range), c.range.end, c.charCount, i).start > c.range.start
    ensures SpecGap(CharsIn(t, c.range), c.range.end, c.charCount, i).end <= c.range.end
  {
    forall j | 0 <= j < c.charCount
      ensures var g := SpecGap(CharsIn(t, c.range), c.range.end, c.charCount, i);
              var d := CharsIn(t, c.range)[j];
              !(g.start <= d.decl <= g.end) && !(g.start <= d.value <= g.end)
    {
      OutsideGap(t, u, c.charCount, i, j);
    }
    ValueInside(t, u, i);
    if i + 1 < c.charCount {
      ValueInside(t, u, i + 1);
    }
  }

  lemma OutsideGap(t: Table, u: Uuid, m: nat, i: nat, j: nat)
    requires WellFormed(t) && ServicesOf(t, u) != []
    requires i < m && j < m <= |CharsIn(t, ServicesOf(t, u)[0].range)|
    ensures var r := ServicesOf(t, u)[0].range;
            var g := SpecGap(CharsIn(t, r), r.end, m, i);
            var d := CharsIn(t, r)[j];
            !(g.start <= d.decl <= g.end) && !(g.start <= d.value <= g.end)
  {
    ValueInside(t, u, j);
    CharsFacts(t, ServicesOf(t, u)[0].range);
    if i + 1 < m {
      ValueInside(t, u, i + 1);
    }
  }

  /** Every request is for a non-empty range inside the service, and a descriptor request
      covers no stored declaration and no stored value. */
  lemma RequestsInside(t: Table, exact: bool, s: State)
    requires WellFormed(t) && Inv(t, exact, s) && s.inProgress
    ensures !s.request.value.FindService? ==> Inside(s.request.value.range, s.Current().range)
    ensures s.request.value.FindDescs? ==> ClearOf(s.request.value.range, s.Current())
  {
    var u := s.registered[s.currSrv];
    match s.request.value
    case FindService(_) =>
    case FindChars(_) =>
      if s.Current().charCount > 0 {
        LastValue(t, u, s.Current().charCount);
        ValueInside(t, u, s.Current().charCount - 1);
      }
    case FindDescs(_) =>
      GapIsClear(t, exact, u, s.Current(), s.currChar, s.currChar);
  }

  /** Requests of one kind within a service advance: characteristic requests shrink towards
      the service end, descriptor requests lie beyond each other. */
  lemma RequestsAdvance(t: Table, exact: bool, s: State, reply: Reply)
    requires WellFormed(t) && Inv(t, exact, s) && s.inProgress
    requires Answers(t, exact, s.request.value, reply)
    requires Step(s, reply).inProgress && Step(s, reply).currSrv == s.currSrv
    ensures Advances(s.request.value, Step(s, reply).request)
  {
    StepKeeps(t, exact, s, reply);
    WorkDecreases(t, exact, s, reply);
    LessWorkAdvances(t, exact, s, Step(s, reply));
  }

  predicate Advances(q: Request, next: Option<Request>) {
    && next.Some?
    && (q.FindChars? && next.value.FindChars? ==>
          q.range.start < next.value.range.start && q.range.end == next.value.range.end)
    && (q.FindDescs? ==> next.value.FindDescs? && q.range.end < next.value.range.start)
  }

  lemma LessWorkAdvances(t: Table, exact: bool, s: State, s': State)
    requires WellFormed(t) && Inv(t, exact, s) && s.inProgress && Inv(t, exact, s') && s'.inProgress
    requires s.registered == s'.registered && s.currSrv == s'.currSrv && Work(s') < Work(s)
    ensures Advances(s.request.value, s'.request)
  {
    LessLocal(s, s');
    if s.request.value.FindChars? && s'.request.value.FindChars? {
      assert s.Current().charCount < s'.Current().charCount;
      CharsAdvance(t, exact, s, s');
    } else if s.request.value.FindDescs? {
      assert s'.request.value.FindDescs? && s.currChar < s'.currChar;
      DescsAdvance(t, exact, s, s');
    }
  }

  lemma LessLocal(s: State, s': State)
    requires s.inProgress && s.request.Some? && s.currSrv < |s.services|
    requires s'.inProgress && s'.request.Some? && s'.currSrv < |s'.services|
    requires s.registered == s'.registered && s.currSrv == s'.currSrv && Work(s') < Work(s)
    ensures Local(s') < Local(s)
  {
  }

  lemma CharsAdvance(t: Table, exact: bool, s: State, s': State)
    requires WellFormed(t) && s.request.Some? && s'.request.Some?
    requires Base(t, exact, s) && Phase(t, exact, s) && Base(t, exact, s') && Phase(t, exact, s')
    requires s.registered == s'.registered && s.currSrv == s'.currSrv
    requires s.request.value.FindChars? && s'.request.value.FindChars?
    requires s.Current().charCount < s'.Current().charCount
    ensures Advances(s.request.value, s'.request)
  {
    CharCharRange(t, s.registered[s.currSrv], s.Current().charCount, s'.Current().charCount);
  }

  lemma DescsAdvance(t: Table, exact: bool, s: State, s': State)
    requires WellFormed(t) && s.request.Some? && s'.request.Some?
    requires Base(t, exact, s) && Phase(t, exact, s) && Base(t, exact, s') && Phase(t, exact, s')
    requires s.registered == s'.registered && s.currSrv == s'.currSrv
    requires s.request.value.FindDescs? && s'.request.value.FindDescs? && s.currChar < s'.currChar
    ensures Advances(s.request.value, s'.request)
  {
    LaterGap(t, s.Current().range, s.Current().charCount, s.currChar, s'.currChar);
  }

  lemma CharCharRange(t: Table, u: Uuid, k: nat, k': nat)
    requires WellFormed(t) && ServicesOf(t, u) != []
    requires k < k' <= |CharsIn(t, ServicesOf(t, u)[0].range)|
    ensures var r := ServicesOf(t, u)[0].range;
            var cs := CharsIn(t, r);
            (if k == 0 then r.start else cs[k - 1].value + 1) < cs[k' - 1].value + 1
  {
    var r := ServicesOf(t, u)[0].range;
    ValueInside(t, u, k' - 1);
    if k > 0 {
      CharsFacts(t, r);
    }
  }

  lemma LaterGap(t: Table, r: Range, m: nat, i: nat, j: nat)
    requires Laid(t) && i < j < m <= |CharsIn(t, r)|
    ensures SpecGap(CharsIn(t, r), r.end, m, i).end < SpecGap(CharsIn(t, r), r.end, m, j).start
  {
    CharsFacts(t, r);
    assert CharsIn(t, r)[i + 1] in CharsIn(t, r);
  }

  // ---------- refused requests ----------

  /** How a run with a refused request differs from one where it is accepted. */
  predicate Refused(ok: State, bad: State, conn: int, sd: int) {
    if ok.inProgress then
      !bad.inProgress && bad.request.None? && bad.delivered == ok.delivered + [ErrorEvent(conn, sd)]
    else bad == ok
  }

  lemma FinishRefused(s: State, found: bool, sd: int)
    requires s.Valid() && s.inProgress && sd != SUCCESS
    ensures Refused(Finish(s, found, s.conn, SUCCESS), Finish(s, found, s.conn, sd), s.conn, sd)
  {
  }

  lemma DescsRefused(s: State, sd: int)
    requires s.Valid() && s.inProgress && s.currChar <= s.Current().charCount && sd != SUCCESS
    requires s.Current().uuid in s.registered
    ensures Refused(DescsDiscover(s, s.conn, SUCCESS), DescsDiscover(s, s.conn, sd), s.conn, sd)
  {
    var k := NextGap(s.Current(), s.currChar);
    if k == s.Current().charCount {
      FinishRefused(s.(currChar := if s.currChar + 1 == s.Current().charCount then s.currChar else k), true, sd);
    }
  }

  lemma AfterStoreRefused(s: State, sd: int)
    requires s.Valid() && s.inProgress && s.Current().charCount > 0 && sd != SUCCESS
    requires s.Current().uuid in s.registered
    ensures Refused(AfterStore(s, s.conn, SUCCESS), AfterStore(s, s.conn, sd), s.conn, sd)
  {
    DescsRefused(s.(currChar := 0), sd);
  }

  lemma AfterDescsRefused(s: State, sd: int)
    requires s.Valid() && s.inProgress && s.currChar < s.Current().charCount && sd != SUCCESS
    requires s.Current().uuid in s.registered
    ensures Refused(AfterDescs(s, s.conn, SUCCESS), AfterDescs(s, s.conn, sd), s.conn, sd)
  {
    if s.currChar + 1 == s.Current().charCount {
      FinishRefused(s, true, sd);
    } else {
      DescsRefused(s.(currChar := s.currChar + 1), sd);
    }
  }

  /** If the SoftDevice refuses the request a step wants to issue, the discovery ends with
      one error event and none of the queued events; a step that issues none is unaffected. */
  lemma RefusalStops(t: Table, exact: bool, s: State, reply: Reply, sd: int)
    requires WellFormed(t) && Inv(t, exact, s) && s.inProgress && sd != SUCCESS
    requires Answers(t, exact, s.request.value, reply)
    ensures Refused(Step(s, reply), StepWith(s, reply, sd), s.conn, sd)
    ensures Step(s, reply).inProgress ==> Step(s, reply).delivered == []
  {
    StepKeeps(t, exact, s, reply);
    match reply
    case Services(f) => ServicesRefused(t, exact, s, f, sd);
    case Chars(c) => CharsRefused(s, c, sd);
    case Descs(d) => DescsReplyRefused(s, d, sd);
  }

  lemma CharsRefused(s: State, c: Option<seq<Characteristic>>, sd: int)
    requires s.Valid() && s.inProgress && sd != SUCCESS && s.Current().uuid in s.registered
    requires c.Some? ==> 1 <= |c.value| < 0x100
    ensures Refused(OnChars(s, s.conn, c, SUCCESS), OnChars(s, s.conn, c, sd), s.conn, sd)
  {
    if c.Some? {
      AfterStoreRefused(s.SetCurrent(Store(s.Current(), c.value)), sd);
    } else {
      DescsRefused(s.(currChar := 0), sd);
    }
  }

  lemma DescsReplyRefused(s: State, d: Option<seq<Attribute>>, sd: int)
    requires s.Valid() && s.inProgress && sd != SUCCESS && s.Current().uuid in s.registered
    requires s.currChar < s.Current().charCount
    ensures Refused(OnDescs(s, s.conn, d, SUCCESS), OnDescs(s, s.conn, d, sd), s.conn, sd)
  {
    AfterDescsRefused(if d.Some? then s.SetCurrent(WithCccd(s.Current(), s.currChar, d.value)) else s, sd);
  }

  lemma ServicesRefused(t: Table, exact: bool, s: State, f: Option<seq<FoundService>>, sd: int)
    requires Inv(t, exact, s) && s.inProgress && sd != SUCCESS
    requires Answers(t, exact, s.request.value, Services(f))
    ensures Refused(OnServices(s, s.conn, f, SUCCESS), OnServices(s, s.conn, f, sd), s.conn, sd)
  {
    if f.None? {
      FinishRefused(s, false, sd);
    } else {
      ServicesFacts(t, s.registered[s.currSrv]);
      assert f.value[0] in ServicesOf(t, s.registered[s.currSrv]);
    }
  }
}
