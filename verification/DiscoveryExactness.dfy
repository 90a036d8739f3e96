/** What decides whether a delivered service is the one-pass reading of the server's table:
    the client asks for the descriptors of a characteristic only once. */
module DiscoveryExactness {
  import opened Options
  import opened AttributeTable
  import opened DiscoveryModel
  import opened DiscoveryRuns
  import opened DiscoveryTheorems

  // ---------- a settled descriptor handle stays until delivery ----------

  predicate EventHas(e: Event, i: nat, x: int) {
    e.Event? && i < e.db.charCount && i < |e.db.chars| && e.db.chars[i].cccd == x
  }

  /** Entry `i` of service `srv` holds `x`, either in its queued event or, below `done`, in
      the service being discovered. */
  ghost predicate Kept(s: State, done: nat, srv: nat, i: nat, x: int) {
    if srv < s.count then srv < |s.slots| && EventHas(s.slots[srv], i, x)
    else
      && srv == s.currSrv < |s.services| && i < done
      && i < s.Current().charCount && i < |s.Current().chars| && s.Current().chars[i].cccd == x
  }

  /** The entry is final: it will be delivered, or has been, with `x`. */
  ghost predicate SettledAs(s: State, srv: nat, i: nat, x: int) {
    if !s.inProgress then srv < |s.delivered| && EventHas(s.delivered[srv], i, x)
    else Kept(s, if s.request.Some? && s.request.value.FindDescs? then s.currChar else 0, srv, i, x)
  }

  ghost predicate Counting(s: State) {
    && s.Valid() && s.inProgress && s.delivered == [] && s.index == s.count
    && s.Current().uuid in s.registered
  }

  lemma FinishSettles(s: State, found: bool, srv: nat, i: nat, x: int)
    requires Counting(s) && Kept(s, s.Current().charCount, srv, i, x)
    ensures SettledAs(Finish(s, found, s.conn, SUCCESS), srv, i, x)
  {
    FinishIs(s, found);
    var q := QueueEvent(s, found, s.conn);
    assert EventHas(q.slots[srv], i, x);
  }

  lemma DescsSettles(s: State, srv: nat, i: nat, x: int)
    requires Counting(s) && s.currChar <= s.Current().charCount && Kept(s, s.currChar, srv, i, x)
    ensures SettledAs(DescsDiscover(s, s.conn, SUCCESS), srv, i, x)
  {
    DescsIs(s);
    if NextGap(s.Current(), s.currChar) == s.Current().charCount {
      FinishSettles(Searched(s), true, srv, i, x);
    }
  }

  lemma AfterDescsSettles(s: State, srv: nat, i: nat, x: int)
    requires Counting(s) && s.currChar < s.Current().charCount && Kept(s, s.currChar + 1, srv, i, x)
    ensures SettledAs(AfterDescs(s, s.conn, SUCCESS), srv, i, x)
  {
    AfterDescsIs(s, s.conn, SUCCESS);
    if s.currChar + 1 == s.Current().charCount {
      FinishSettles(s, true, srv, i, x);
    } else {
      DescsSettles(s.(currChar := s.currChar + 1), srv, i, x);
    }
  }

  lemma AfterStoreSettles(s: State, srv: nat, i: nat, x: int)
    requires Counting(s) && s.Current().charCount > 0 && Kept(s, 0, srv, i, x)
    ensures SettledAs(AfterStore(s, s.conn, SUCCESS), srv, i, x)
  {
    AfterStoreIs(s);
    DescsSettles(s.(currChar := 0), srv, i, x);
  }

  lemma CharsSettles(s: State, chars: Option<seq<Characteristic>>, srv: nat, i: nat, x: int)
    requires Counting(s) && Kept(s, 0, srv, i, x)
    requires chars.Some? ==> 1 <= |chars.value| < 0x100
    ensures SettledAs(OnChars(s, s.conn, chars, SUCCESS), srv, i, x)
  {
    OnCharsIs(s, chars);
    if chars.None? {
      DescsSettles(s.(currChar := 0), srv, i, x);
    } else {
      AfterStoreSettles(s.SetCurrent(Store(s.Current(), chars.value)), srv, i, x);
    }
  }

  lemma ServicesSettles(s: State, found: Option<seq<FoundService>>, srv: nat, i: nat, x: int)
    requires Counting(s) && !(s.request.Some? && s.request.value.FindDescs?) && SettledAs(s, srv, i, x)
    requires found.Some? ==> found.value != []
    ensures SettledAs(OnServices(s, s.conn, found, SUCCESS), srv, i, x)
  {
    if found.None? {
      FinishSettles(s, false, srv, i, x);
    }
  }

  lemma StepSettles(t: Table, exact: bool, s: State, reply: Reply, srv: nat, i: nat, x: int)
    requires Inv(t, exact, s) && s.inProgress && Answers(t, exact, s.request.value, reply)
    requires SettledAs(s, srv, i, x)
    ensures SettledAs(Step(s, reply), srv, i, x)
  {
    AnswersAreReady(t, exact, s, reply);
    assert Counting(s);
    match reply {
      case Services(found) => ServicesSettles(s, found, srv, i, x);
      case Chars(chars) => CharsSettles(s, chars, srv, i, x);
      case Descs(descs) => DescsReplySettles(t, exact, s, reply, srv, i, x);
    }
  }

  lemma DescsReplySettles(t: Table, exact: bool, s: State, reply: Reply, srv: nat, i: nat, x: int)
    requires Counting(s) && Ready(s, reply) && reply.Descs?
    requires Kept(s, s.currChar, srv, i, x)
    ensures SettledAs(Step(s, reply), srv, i, x)
  {
    AfterDescsSettles(Settled(s, reply.descs), srv, i, x);
    StepIsAfterDescs(s, reply);
  }

  lemma {:induction false} RunSettles(t: Table, exact: bool, s: State, replies: seq<Reply>, srv: nat, i: nat, x: int)
    requires WellFormed(t) && Inv(t, exact, s) && Run(t, exact, s, replies)
    requires SettledAs(s, srv, i, x)
    ensures SettledAs(Exec(s, replies), srv, i, x)
    decreases |replies|
  {
    if replies != [] {
      StepKeeps(t, exact, s, replies[0]);
      StepSettles(t, exact, s, replies[0], srv, i, x);
      RunSettles(t, exact, Step(s, replies[0]), replies[1..], srv, i, x);
    }
  }

  // ---------- one descriptor response ----------

  /** The delivered descriptor handle of entry `i` of service `srv`. */
  function DeliveredCccd(s: State, srv: nat, i: nat): Option<int> {
    if srv < |s.delivered| then CccdOf(s.delivered[srv], i) else None
  }

  function CccdOf(e: Event, i: nat): (x: Option<int>)
    ensures x.Some? ==> EventHas(e, i, x.value)
    ensures x.None? ==> forall y :: !EventHas(e, i, y)
  {
    if e.Event? && i < e.db.charCount && i < |e.db.chars| then Some(e.db.chars[i].cccd) else None
  }

  predicate ShowsCccd(reply: Reply) {
    reply.Descs? && reply.descs.Some? && exists d :: d in reply.descs.value && d.IsCccd()
  }

  /** The step that settles an entry gives it what the response showed. */
  lemma DescsReplySettlesAs(t: Table, s: State, reply: Reply)
    requires WellFormed(t) && Inv(t, false, s) && s.inProgress && s.request.value.FindDescs?
    requires Answers(t, false, s.request.value, reply)
    ensures SettledAs(Step(s, reply), s.currSrv, s.currChar, Shown(reply.descs))
  {
    ShownIsOk(t, false, s.request.value.range, reply.descs);
    var s' := Settled(s, reply.descs);
    assert s'.Current().chars[s.currChar].cccd == Shown(reply.descs);
    AfterDescsSettles(s', s.currSrv, s.currChar, Shown(reply.descs));
    StepIsAfterDescs(s, reply);
  }

  /** A characteristic is delivered with the first configuration descriptor of the range that
      was asked for iff the one response to that request shows it, or there is none. */
  lemma CccdFoundIff(t: Table, s: State, reply: Reply, rest: seq<Reply>)
    requires WellFormed(t) && Inv(t, false, s) && s.inProgress && s.request.value.FindDescs?
    requires Answers(t, false, s.request.value, reply)
    requires Run(t, false, Step(s, reply), rest) && !Exec(Step(s, reply), rest).inProgress
    ensures var first := FirstCccd(AttrsIn(t, s.request.value.range));
            DeliveredCccd(Exec(Step(s, reply), rest), s.currSrv, s.currChar) == Some(first)
            <==> first == 0 || ShowsCccd(reply)
  {
    DescsReplySettlesAs(t, s, reply);
    StepKeeps(t, false, s, reply);
    RunSettles(t, false, Step(s, reply), rest, s.currSrv, s.currChar, Shown(reply.descs));
    ShownIsFirstIff(t, s.request.value.range, reply);
  }

  lemma ShownIsFirstIff(t: Table, gap: Range, reply: Reply)
    requires WellFormed(t) && Answers(t, false, FindDescs(gap), reply)
    ensures var first := FirstCccd(AttrsIn(t, gap));
            && (Shown(reply.descs) == first <==> first == 0 || ShowsCccd(reply))
            && (Shown(reply.descs) == first <==> Answers(t, true, FindDescs(gap), reply))
  {
    if reply.descs.Some? {
      CccdSeen(t, gap, reply.descs.value);
    }
  }

  // ---------- whole runs ----------

  ghost predicate AllRefine(t: Table, registered: seq<Uuid>, es: seq<Event>) {
    |es| == |registered| && forall j :: 0 <= j < |registered| ==> Refines(t, registered[j], es[j])
  }

  lemma RefinedEntry(t: Table, u: Uuid, e: Event, i: nat)
    requires WellFormed(t) && Refines(t, u, e) && ServicesOf(t, u) != []
    requires i < Cap(CharsIn(t, ServicesOf(t, u)[0].range))
    ensures var r := ServicesOf(t, u)[0].range;
            var cs := CharsIn(t, r);
            EventHas(e, i, FirstCccd(AttrsIn(t, SpecGap(cs, r.end, Cap(cs), i))))
  {
    OnePassEntry(t, ServicesOf(t, u)[0].range, i);
    assert e.db.Stored()[i] == e.db.chars[i];
  }

  lemma OnePassEntry(t: Table, r: Range, i: nat)
    requires WellFormed(t) && i < Cap(CharsIn(t, r))
    ensures var cs := CharsIn(t, r);
            && |OnePass(t, r)| == Cap(cs)
            && OnePass(t, r)[i].cccd == FirstCccd(AttrsIn(t, SpecGap(cs, r.end, Cap(cs), i)))
  {
    var cs := CharsIn(t, r);
    var taken := Take(cs, MAX_CHARS);
    HandlesPositive(t);
    OnePassMeaning(t, r);
    EntriesLength(t, r.end, taken);
    EntryAt(t, r.end, taken, i);
    assert SpecGap(taken, r.end, |taken|, i) == SpecGap(cs, r.end, Cap(cs), i);
  }

  /** A response that misses a descriptor spoils the delivered service for good. */
  lemma RefinedAnswerIsExact(t: Table, s: State, reply: Reply, rest: seq<Reply>)
    requires WellFormed(t) && Inv(t, false, s) && s.inProgress && Answers(t, false, s.request.value, reply)
    requires Run(t, false, Step(s, reply), rest) && !Exec(Step(s, reply), rest).inProgress
    requires AllRefine(t, s.registered, Exec(Step(s, reply), rest).delivered)
    ensures Answers(t, true, s.request.value, reply)
  {
    if s.request.value.FindDescs? {
      var u := s.registered[s.currSrv];
      var e := Exec(Step(s, reply), rest);
      RefinedEntry(t, u, e.delivered[s.currSrv], s.currChar);
      CccdFoundIff(t, s, reply, rest);
      ShownIsFirstIff(t, s.request.value.range, reply);
    }
  }

  lemma {:induction false} RefinedRunIsExact(t: Table, s: State, replies: seq<Reply>)
    requires WellFormed(t) && Inv(t, false, s) && Run(t, false, s, replies)
    requires !Exec(s, replies).inProgress && AllRefine(t, s.registered, Exec(s, replies).delivered)
    ensures Run(t, true, s, replies)
    decreases |replies|
  {
    if replies != [] {
      StepKeeps(t, false, s, replies[0]);
      RefinedAnswerIsExact(t, s, replies[0], replies[1..]);
      RefinedRunIsExact(t, Step(s, replies[0]), replies[1..]);
    }
  }

  /** Refinement, exactly. However the server splits its responses, a finished discovery has
      delivered the one-pass reading of the table for every registered service iff each
      descriptor response reached the first configuration descriptor of its range. */
  lemma DiscoveryRefinesIff(t: Table, s: State, conn: int, replies: seq<Reply>)
    requires WellFormed(t) && Zeroed(s)
    requires Run(t, false, Start(s, conn, SUCCESS).0, replies)
    requires !Final(s, conn, replies).inProgress
    ensures AllRefine(t, s.registered, Final(s, conn, replies).delivered)
            <==> Run(t, true, Start(s, conn, SUCCESS).0, replies)
  {
    StartInv(t, false, s, conn);
    if Run(t, true, Start(s, conn, SUCCESS).0, replies) {
      DiscoveryRefinesOnePass(t, s, conn, replies);
    } else if AllRefine(t, s.registered, Final(s, conn, replies).delivered) {
      RefinedRunIsExact(t, Start(s, conn, SUCCESS).0, replies);
    }
  }

  // ---------- services with more characteristics than fit ----------

  lemma {:induction false} AttrsSplit(t: Table, lo: int, mid: int, hi: int)
    requires Laid(t) && lo <= mid <= hi + 1
    ensures AttrsIn(t, Range(lo, hi)) == AttrsIn(t, Range(lo, mid - 1)) + AttrsIn(t, Range(mid, hi))
  {
    if t != [] {
      if t[0].handle >= mid {
        NothingBefore(t, lo, mid - 1);
        SameAttrs(t, Range(lo, hi), Range(mid, hi));
      } else {
        LaidTail(t);
        AttrsSplit(t[1..], lo, mid, hi);
      }
    }
  }

  lemma {:induction false} SameAttrs(t: Table, r: Range, s: Range)
    requires Laid(t) && r.end == s.end
    requires t != [] ==> r.start <= t[0].handle && s.start <= t[0].handle
    ensures AttrsIn(t, r) == AttrsIn(t, s)
  {
    if t != [] {
      LaidTail(t);
      assert |t| > 1 ==> Before(t, 0, 1);
      SameAttrs(t[1..], r, s);
    }
  }

  lemma {:induction false} FirstCccdAppend(a: seq<Attribute>, b: seq<Attribute>)
    requires forall x :: x in a + b ==> x.handle >= 1
    ensures FirstCccd(a + b) == if FirstCccd(a) != 0 then FirstCccd(a) else FirstCccd(b)
  {
    if a == [] {
      assert a + b == b;
    } else {
      assert (a + b)[1..] == a[1..] + b;
      assert forall x :: x in a[1..] + b ==> x in a + b;
      if !a[0].IsCccd() {
        FirstCccdAppend(a[1..], b);
      } else {
        assert a[0] in a + b;
      }
    }
  }

  /** The configuration descriptor of the last characteristic of `r` that fits. */
  function OwnCccd(t: Table, r: Range): int
    requires MAX_CHARS < |CharsIn(t, r)|
  {
    FirstCccd(AttrsIn(t, Range(CharsIn(t, r)[MAX_CHARS - 1].value + 1, CharsIn(t, r)[MAX_CHARS].decl - 1)))
  }

  /** The first one of those that do not. */
  function OtherCccd(t: Table, r: Range): int
    requires MAX_CHARS < |CharsIn(t, r)|
  {
    FirstCccd(AttrsIn(t, Range(CharsIn(t, r)[MAX_CHARS].decl, r.end)))
  }

  /** A service with more characteristics than fit gives its last stored one the rest of the
      service to search. What is delivered for it is its own descriptor iff it has one itself
      or none of the dropped characteristics has. Only a response that stops short can add to
      that, by leaving the handle unset. */
  lemma LastCccdIsOwnIff(t: Table, exact: bool, s: State, conn: int, replies: seq<Reply>, j: nat)
    requires WellFormed(t) && Zeroed(s)
    requires Run(t, exact, Start(s, conn, SUCCESS).0, replies) && !Final(s, conn, replies).inProgress
    requires j < |s.registered| && ServicesOf(t, s.registered[j]) != []
    requires MAX_CHARS < |CharsIn(t, ServicesOf(t, s.registered[j])[0].range)|
    ensures var r := ServicesOf(t, s.registered[j])[0].range;
            var own, others := OwnCccd(t, r), OtherCccd(t, r);
            var delivered := DeliveredCccd(Final(s, conn, replies), j, MAX_CHARS - 1);
            exact || delivered != Some(0) ==>
              && delivered == Some(if own != 0 then own else others)
              && (delivered == Some(own) <==> own != 0 || others == 0)
  {
    DiscoveryDelivers(t, exact, s, conn, replies);
    LastOfEventIsOwnIff(t, exact, s.registered[j], conn, Final(s, conn, replies).delivered[j]);
  }

  lemma LastOfEventIsOwnIff(t: Table, exact: bool, u: Uuid, conn: int, e: Event)
    requires WellFormed(t) && Good(t, exact, u, conn, e) && ServicesOf(t, u) != []
    requires MAX_CHARS < |CharsIn(t, ServicesOf(t, u)[0].range)|
    ensures var r := ServicesOf(t, u)[0].range;
            var own, others := OwnCccd(t, r), OtherCccd(t, r);
            var delivered := CccdOf(e, MAX_CHARS - 1);
            exact || delivered != Some(0) ==>
              && delivered == Some(if own != 0 then own else others)
              && (delivered == Some(own) <==> own != 0 || others == 0)
  {
    var r := ServicesOf(t, u)[0].range;
    var last, dropped := CharsIn(t, r)[MAX_CHARS - 1], CharsIn(t, r)[MAX_CHARS];
    LastOfGood(t, exact, u, conn, e);
    LastBeforeDropped(t, r);
    CccdSplit(t, last.value + 1, dropped.decl, r.end);
  }

  lemma LastOfGood(t: Table, exact: bool, u: Uuid, conn: int, e: Event)
    requires Good(t, exact, u, conn, e) && ServicesOf(t, u) != []
    requires MAX_CHARS < |CharsIn(t, ServicesOf(t, u)[0].range)|
    ensures var r := ServicesOf(t, u)[0].range;
            var x := FirstCccd(AttrsIn(t, Range(CharsIn(t, r)[MAX_CHARS - 1].value + 1, r.end)));
            EventHas(e, MAX_CHARS - 1, x) || (!exact && EventHas(e, MAX_CHARS - 1, 0))
  {
    var r := ServicesOf(t, u)[0].range;
    assert CccdOk(t, exact, SpecGap(CharsIn(t, r), r.end, MAX_CHARS, MAX_CHARS - 1), e.db.chars[MAX_CHARS - 1].cccd);
  }

  lemma LastBeforeDropped(t: Table, r: Range)
    requires Laid(t) && MAX_CHARS < |CharsIn(t, r)|
    ensures CharsIn(t, r)[MAX_CHARS - 1].value < CharsIn(t, r)[MAX_CHARS].decl <= r.end
  {
    CharsFacts(t, r);
    assert CharsIn(t, r)[MAX_CHARS] in CharsIn(t, r);
  }

  lemma CccdSplit(t: Table, lo: int, mid: int, hi: int)
    requires WellFormed(t) && lo <= mid <= hi
    ensures var near := FirstCccd(AttrsIn(t, Range(lo, mid - 1)));
            FirstCccd(AttrsIn(t, Range(lo, hi))) ==
            if near != 0 then near else FirstCccd(AttrsIn(t, Range(mid, hi)))
  {
    HandlesPositive(t);
    AttrsSplit(t, lo, mid, hi);
    AttrsFacts(t, Range(lo, mid - 1));
    AttrsFacts(t, Range(mid, hi));
    FirstCccdAppend(AttrsIn(t, Range(lo, mid - 1)), AttrsIn(t, Range(mid, hi)));
  }

  // ---------- a run can always be completed ----------

  /** From every state of a run some further answers complete the discovery. */
  lemma {:induction false} CanComplete(t: Table, exact: bool, s: State) returns (replies: seq<Reply>)
    requires WellFormed(t) && Inv(t, exact, s) && 0 <= Work(s)
    ensures Run(t, exact, s, replies) && !Exec(s, replies).inProgress
    decreases Work(s)
  {
    if !s.inProgress {
      return [];
    }
    CanAnswer(t, exact, s);
    var reply :| Answers(t, exact, s.request.value, reply);
    StepKeeps(t, exact, s, reply);
    WorkDecreases(t, exact, s, reply);
    var rest := CanComplete(t, exact, Step(s, reply));
    replies := [reply] + rest;
    assert replies[1..] == rest;
  }
}
