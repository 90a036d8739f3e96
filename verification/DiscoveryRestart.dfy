/** A second discovery on the same structure. The start resets neither the characteristic
    index nor the stored count, and this decides whether it delivers. */
module DiscoveryRestart {
  import opened Options
  import opened AttributeTable
  import opened DiscoveryModel
  import opened DiscoveryRuns
  import opened DiscoveryTheorems
  import opened DiscoveryExamples

  /** A structure on which no discovery is in progress, whatever earlier ones left behind.
      Deliveries are counted from the next start. */
  ghost predicate Stopped(s: State) {
    s.Valid() && s.registered != [] && !s.inProgress && s.request.None? && s.delivered == []
  }

  /** The events queued so far, or all delivered ones, are what they must be. */
  ghost predicate Right(t: Table, s: State, conn: int) {
    if s.inProgress then
      forall j :: 0 <= j < s.count && j < |s.registered| && j < |s.slots| ==>
        Good(t, false, s.registered[j], conn, s.slots[j])
    else AllGood(t, false, s.registered, conn, s.delivered)
  }

  /** Whatever the server holds and however it splits its answers, the next discovery is right. */
  ghost predicate AlwaysRight(s: State, conn: int)
    requires s.Valid()
  {
    forall t, replies :: WellFormed(t) && Run(t, false, Start(s, conn, SUCCESS).0, replies) ==>
      Right(t, Final(s, conn, replies), conn)
  }

  // ---------- the first service, from any left-over state ----------

  ghost predicate First(s: State) {
    && s.Valid() && s.inProgress && s.delivered == []
    && s.index == s.count == s.currSrv == 0 < |s.registered| && s.Current().uuid == s.registered[0]
  }

  /** The first service was found and is being searched. */
  ghost predicate Searching(s: State) {
    && First(s) && s.request.Some? && !s.request.value.FindService?
    && (s.request.value.FindDescs? ==> s.currChar < s.Current().charCount)
  }

  predicate AtLeast(e: Event, n: nat) {
    e.Event? && e.db.charCount >= n
  }

  /** The event of the first service is queued or delivered with `n` characteristics or more. */
  ghost predicate Sent(s: State, n: nat) {
    if s.inProgress then s.count == 1 && s.slots != [] && AtLeast(s.slots[0], n)
    else s.delivered != [] && AtLeast(s.delivered[0], n)
  }

  /** The search goes on with `n` characteristics or more, or its event is out. */
  ghost predicate GoesOn(s: State, n: nat, work: int) {
    if Searching(s) then s.Current().charCount >= n && 0 <= Local(s) < work else Sent(s, n)
  }

  lemma FinishSends(s: State)
    requires First(s)
    ensures Sent(Finish(s, true, s.conn, SUCCESS), s.Current().charCount) && !Searching(Finish(s, true, s.conn, SUCCESS))
  {
    FinishIs(s, true);
    var q := QueueEvent(s, true, s.conn);
    assert AtLeast(q.slots[0], s.Current().charCount);
  }

  lemma DescsGoOn(s: State)
    requires First(s) && s.currChar <= s.Current().charCount
    ensures GoesOn(DescsDiscover(s, s.conn, SUCCESS), s.Current().charCount, MAX_CHARS + 1 - s.currChar)
  {
    DescsIs(s);
    if NextGap(s.Current(), s.currChar) == s.Current().charCount {
      FinishSends(Searched(s));
    }
  }

  lemma DescsReplyGoesOn(s: State, reply: Reply)
    requires Searching(s) && s.request.value.FindDescs? && reply.Descs?
    ensures GoesOn(Step(s, reply), s.Current().charCount, Local(s))
  {
    StepIsAfterDescs(s, reply);
    var s' := Settled(s, reply.descs);
    AfterDescsIs(s', s'.conn, SUCCESS);
    if s'.currChar + 1 == s'.Current().charCount {
      FinishSends(s');
    } else {
      DescsGoOn(s'.(currChar := s'.currChar + 1));
    }
  }

  lemma AfterStoreGoesOn(s: State, work: int)
    requires First(s) && s.Current().charCount > 0
    requires work > MAX_CHARS && (s.Current().charCount < MAX_CHARS ==> work > STEPS_PER_SERVICE - 1 - s.Current().charCount)
    ensures GoesOn(AfterStore(s, s.conn, SUCCESS), s.Current().charCount, work)
  {
    AfterStoreIs(s);
    DescsGoOn(s.(currChar := 0));
  }

  /** How many characteristics a response leaves at least. */
  function Gained(c: Service, reply: Reply): nat {
    if reply.Chars? && reply.chars.Some? && c.charCount == 0 then 1 else c.charCount
  }

  lemma CharsReplyGoesOn(s: State, reply: Reply)
    requires Searching(s) && s.request.value.FindChars? && reply.Chars?
    requires reply.chars.Some? ==> 1 <= |reply.chars.value| < 0x100
    ensures GoesOn(Step(s, reply), Gained(s.Current(), reply), Local(s))
  {
    OnCharsIs(s, reply.chars);
    if reply.chars.None? {
      DescsGoOn(s.(currChar := 0));
    } else {
      AfterStoreGoesOn(s.SetCurrent(Store(s.Current(), reply.chars.value)), Local(s));
    }
  }

  lemma StepGoesOn(t: Table, s: State, reply: Reply)
    requires Searching(s) && Answers(t, false, s.request.value, reply)
    ensures GoesOn(Step(s, reply), Gained(s.Current(), reply), Local(s))
  {
    if s.request.value.FindChars? {
      CharsReplyGoesOn(s, reply);
    } else {
      DescsReplyGoesOn(s, reply);
    }
  }

  /** Some answers lead to the event of the first service. */
  lemma {:induction false} SearchEnds(t: Table, s: State) returns (replies: seq<Reply>)
    requires Searching(s) && 0 <= Local(s)
    ensures Run(t, false, s, replies) && Sent(Exec(s, replies), s.Current().charCount)
    decreases Local(s)
  {
    CanAnswerRequest(t, false, s.request.value);
    var reply :| Answers(t, false, s.request.value, reply);
    StepGoesOn(t, s, reply);
    var rest := [];
    if Searching(Step(s, reply)) {
      rest := SearchEnds(t, Step(s, reply));
    }
    replies := [reply] + rest;
    assert replies[1..] == rest;
  }

  // ---------- servers on which left-over fields do harm ----------

  lemma SentIsWrong(t: Table, s: State, conn: int, n: nat)
    requires Sent(s, n) && s.registered != [] && ServicesOf(t, s.registered[0]) != []
    requires n > Cap(CharsIn(t, ServicesOf(t, s.registered[0])[0].range))
    ensures !Right(t, s, conn)
  {
    var e := if s.inProgress then s.slots[0] else s.delivered[0];
    assert !Good(t, false, s.registered[0], conn, e);
  }

  /** The answer to the first request. */
  function Found(f: FoundService): Reply {
    Services(Some([f]))
  }

  lemma AfterFound(t: Table, s: State, conn: int, f: FoundService)
    requires Stopped(s) && ServicesOf(t, s.registered[0]) == [f] && f.uuid == s.registered[0]
    ensures var s1 := Start(s, conn, SUCCESS).0;
            && s1.inProgress && s1.request.Some? && Answers(t, false, s1.request.value, Found(f))
            && var s2 := Step(s1, Found(f));
               && Searching(s2) && s2.conn == conn && s2.registered == s.registered && s2.currChar == s.currChar
               && s2.Current().charCount == s.services[0].charCount && s2.Current().range == f.range
               && s2.request == Some(FindChars(Range(
                    if s.currChar != 0 then U16(s.services[0].chars[s.currChar - 1].chr.value + 1) else f.range.start,
                    f.range.end)))
  {
  }

  lemma Prefixed(t: Table, s: State, conn: int, f: FoundService, rest: seq<Reply>)
    requires Stopped(s) && ServicesOf(t, s.registered[0]) == [f] && f.uuid == s.registered[0]
    requires Run(t, false, Step(Start(s, conn, SUCCESS).0, Found(f)), rest)
    ensures var replies := [Found(f)] + rest;
            && Run(t, false, Start(s, conn, SUCCESS).0, replies)
            && Final(s, conn, replies) == Exec(Step(Start(s, conn, SUCCESS).0, Found(f)), rest)
  {
    AfterFound(t, s, conn, f);
    assert ([Found(f)] + rest)[1..] == rest;
  }

  /** A service without characteristics is delivered with the left-over ones. */
  lemma StaleCountHarms(s: State, conn: int)
    requires Stopped(s) && s.services[0].charCount > 0
    ensures !AlwaysRight(s, conn)
  {
    var u := s.registered[0];
    var t := [ServiceDecl(1, u, 1)];
    var f := FoundService(u, Range(1, 1));
    assert WellFormed(t);
    OnlyService(t, u);
    assert CharsIn(t, f.range) == [] by {
      assert t[1..] == [];
    }
    AfterFound(t, s, conn, f);
    var s2 := Step(Start(s, conn, SUCCESS).0, Found(f));
    var rest := SearchEnds(t, s2);
    ExecKeepsRegistered(s2, rest);
    SentIsWrong(t, Exec(s2, rest), conn, s.services[0].charCount);
    Prefixed(t, s, conn, f, rest);
  }

  lemma {:induction false} ExecKeepsRegistered(s: State, replies: seq<Reply>)
    ensures Exec(s, replies).registered == s.registered
    decreases |replies|
  {
    if replies != [] {
      ExecKeepsRegistered(Step(s, replies[0]), replies[1..]);
    }
  }

  /** The search starts behind the only characteristic, which is missed. */
  lemma LateIndexHarms(s: State, conn: int)
    requires Stopped(s) && s.services[0].charCount == 0 && s.currChar > 0
    requires U16(s.services[0].chars[s.currChar - 1].chr.value + 1) >= 3
    ensures !AlwaysRight(s, conn)
  {
    var u := s.registered[0];
    var t := Single(u);
    var f := FoundService(u, Range(1, 3));
    SingleFacts(u);
    AfterFound(t, s, conn, f);
    var s2 := Step(Start(s, conn, SUCCESS).0, Found(f));
    ThreeChars(t, s2.request.value.range);
    NothingStored(s2);
    EmptyIsWrong(t, Step(s2, Chars(None)), conn);
    RunOne(t, false, s2, Chars(None));
    Prefixed(t, s, conn, f, [Chars(None)]);
  }

  /** A server with one service of one characteristic. */
  function Single(u: Uuid): Table {
    [ServiceDecl(1, u, 3), CharDecl(2, CHR, 3), Other(3, CHR)]
  }

  lemma SingleFacts(u: Uuid)
    ensures WellFormed(Single(u)) && ServicesOf(Single(u), u) == [FoundService(u, Range(1, 3))]
    ensures CharsIn(Single(u), Range(1, 3)) == [Characteristic(CHR, 2, 3)]
  {
    forall i | 0 <= i < |Single(u)|
      ensures ValueFollows(Single(u), i)
    {
    }
    OnlyService(Single(u), u);
    ThreeChars(Single(u), Range(1, 3));
  }

  lemma EmptyIsWrong(t: Table, s: State, conn: int)
    requires s.registered != [] && ServicesOf(t, s.registered[0]) != []
    requires CharsIn(t, ServicesOf(t, s.registered[0])[0].range) != []
    requires if s.inProgress then s.count == 1 && s.slots != [] && s.slots[0].Event? && s.slots[0].db.charCount == 0
             else s.delivered != [] && s.delivered[0].Event? && s.delivered[0].db.charCount == 0
    ensures !Right(t, s, conn)
  {
    var e := if s.inProgress then s.slots[0] else s.delivered[0];
    assert !Good(t, false, s.registered[0], conn, e);
  }

  lemma ThreeChars(t: Table, r: Range)
    requires |t| >= 3 && t[1] == CharDecl(2, CHR, 3) && !t[0].CharDecl? && !t[2].CharDecl?
    requires forall i :: 3 <= i < |t| ==> !t[i].CharDecl?
    ensures CharsIn(t, r) == if r.start <= 2 <= r.end then [Characteristic(CHR, 2, 3)] else []
  {
    CharsStep(t, r, 2);
    CharsStep(t, r, 1);
    CharsStep(t, r, 0);
    assert t[0..] == t;
    NoChars(t[3..], r);
  }

  lemma {:induction false} NoChars(t: Table, r: Range)
    requires forall i :: 0 <= i < |t| ==> !t[i].CharDecl?
    ensures CharsIn(t, r) == []
  {
    if t != [] {
      NoChars(t[1..], r);
    }
  }

  lemma NothingStored(s: State)
    requires Searching(s) && s.request.value.FindChars? && s.Current().charCount == 0
    ensures var s' := Step(s, Chars(None));
            && s'.registered == s.registered
            && if s'.inProgress then s'.count == 1 && s'.slots != [] && s'.slots[0].Event? && s'.slots[0].db.charCount == 0
               else s'.delivered != [] && s'.delivered[0].Event? && s'.delivered[0].db.charCount == 0
  {
    OnCharsIs(s, None);
    DescsIs(s.(currChar := 0));
    FinishIs(Searched(s.(currChar := 0)), true);
  }

  /** The search starts before the service and finds a characteristic of another one. */
  lemma EarlyIndexHarms(s: State, conn: int)
    requires Stopped(s) && s.services[0].charCount == 0 && s.currChar > 0
    requires U16(s.services[0].chars[s.currChar - 1].chr.value + 1) <= 2
    ensures !AlwaysRight(s, conn)
  {
    var u := s.registered[0];
    var t := Preceded(u);
    var f := FoundService(u, Range(4, 4));
    PrecededFacts(u);
    AfterFound(t, s, conn, f);
    var s2 := Step(Start(s, conn, SUCCESS).0, Found(f));
    ThreeChars(t, s2.request.value.range);
    var reply := Chars(Some([Characteristic(CHR, 2, 3)]));
    StepGoesOn(t, s2, reply);
    var s3 := Step(s2, reply);
    var rest := [];
    if Searching(s3) {
      rest := SearchEnds(t, s3);
    }
    var all := [reply] + rest;
    assert all[1..] == rest;
    ExecKeepsRegistered(s2, all);
    SentIsWrong(t, Exec(s2, all), conn, 1);
    Prefixed(t, s, conn, f, all);
  }

  /** A server with an empty service behind another one. */
  function Preceded(u: Uuid): Table {
    [ServiceDecl(1, Uuid(u.kind + 1, 0), 3), CharDecl(2, CHR, 3), Other(3, CHR), ServiceDecl(4, u, 4)]
  }

  lemma PrecededFacts(u: Uuid)
    ensures WellFormed(Preceded(u)) && ServicesOf(Preceded(u), u) == [FoundService(u, Range(4, 4))]
    ensures CharsIn(Preceded(u), Range(4, 4)) == []
  {
    var t := Preceded(u);
    forall i | 0 <= i < |t|
      ensures ValueFollows(t, i)
    {
    }
    OnlyService(t[3..], u);
    ServicesStep(t, u, 2);
    ServicesStep(t, u, 1);
    ServicesStep(t, u, 0);
    assert t[0..] == t;
    ThreeChars(t, Range(4, 4));
  }

  lemma ServicesStep(t: Table, u: Uuid, k: nat)
    requires k < |t| && !(t[k].ServiceDecl? && t[k].uuid == u)
    ensures ServicesOf(t[k..], u) == ServicesOf(t[k + 1..], u)
  {
    assert t[k..][1..] == t[k + 1..];
  }

  /** A discovery is right on every server iff its structure holds no characteristic index and
      no count from an earlier one. */
  lemma RestartIsRightIff(s: State, conn: int)
    requires Stopped(s)
    ensures AlwaysRight(s, conn) <==> s.currChar == 0 && s.services[0].charCount == 0
  {
    if s.services[0].charCount > 0 {
      StaleCountHarms(s, conn);
    } else if s.currChar > 0 {
      if U16(s.services[0].chars[s.currChar - 1].chr.value + 1) >= 3 {
        LateIndexHarms(s, conn);
      } else {
        EarlyIndexHarms(s, conn);
      }
    } else {
      forall t, replies | WellFormed(t) && Run(t, false, Start(s, conn, SUCCESS).0, replies)
        ensures Right(t, Final(s, conn, replies), conn)
      {
        FinalInv(t, false, s, conn, replies);
      }
    }
  }
}
