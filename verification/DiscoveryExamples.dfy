/** Concrete servers on which the client's reading of the table falls short of the
    specification, with the exact conditions in DiscoveryExactness. */
module DiscoveryExamples {
  import opened Options
  import opened AttributeTable
  import opened DiscoveryModel
  import opened DiscoveryRuns
  import opened DiscoveryTheorems
  import opened DiscoveryExactness

  const SRV := Uuid(1, 0x180D)
  const CHR := Uuid(1, 0x2A37)

  lemma CharsStep(t: Table, r: Range, k: nat)
    requires k < |t|
    ensures CharsIn(t[k..], r) ==
            (if t[k].DeclIn(r) then [Characteristic(t[k].uuid, t[k].handle, t[k].value)] else []) + CharsIn(t[k + 1..], r)
  {
    assert t[k..][1..] == t[k + 1..];
  }

  lemma AttrsStep(t: Table, r: Range, k: nat)
    requires k < |t|
    ensures AttrsIn(t[k..], r) == (if t[k].In(r) then [t[k]] else []) + AttrsIn(t[k + 1..], r)
  {
    assert t[k..][1..] == t[k + 1..];
  }

  /** A table of one service that starts with its declaration. */
  lemma OnlyService(t: Table, u: Uuid)
    requires t != [] && t[0].ServiceDecl? && t[0].uuid == u
    requires forall i :: 1 <= i < |t| ==> !t[i].ServiceDecl?
    ensures ServicesOf(t, u) == [FoundService(u, Range(t[0].handle, t[0].end))]
  {
    NoService(t[1..], u);
  }

  lemma {:induction false} NoService(t: Table, u: Uuid)
    requires forall i :: 0 <= i < |t| ==> !t[i].ServiceDecl?
    ensures ServicesOf(t, u) == []
  {
    if t != [] {
      NoService(t[1..], u);
    }
  }

  // ---------- a server that splits its descriptors ----------

  /** One characteristic with a user description before its configuration descriptor. */
  const DESCRIBED: Table := [
    ServiceDecl(1, SRV, 5), CharDecl(2, CHR, 3), Other(3, CHR), Other(4, Uuid(1, 0x2901)), Other(5, Uuid(1, 0x2902))]

  const DESCRIBED_SERVICE := FoundService(SRV, Range(1, 5))
  const DESCRIBED_CHAR := Characteristic(CHR, 2, 3)

  lemma DescribedWellFormed()
    ensures WellFormed(DESCRIBED)
  {
    forall i | 0 <= i < |DESCRIBED|
      ensures ValueFollows(DESCRIBED, i)
    {
    }
  }

  lemma DescribedAttrs()
    ensures AttrsIn(DESCRIBED, Range(4, 5)) == [DESCRIBED[3], DESCRIBED[4]]
  {
    var t := DESCRIBED;
    AttrsStep(t, Range(4, 5), 4);
    AttrsStep(t, Range(4, 5), 3);
    AttrsStep(t, Range(4, 5), 2);
    AttrsStep(t, Range(4, 5), 1);
    AttrsStep(t, Range(4, 5), 0);
    assert t[0..] == t && t[5..] == [];
  }

  lemma DescribedChars(r: Range)
    requires r == Range(1, 5) || r == Range(4, 5)
    ensures CharsIn(DESCRIBED, r) == if r.start == 1 then [DESCRIBED_CHAR] else []
  {
    var t := DESCRIBED;
    CharsStep(t, r, 4);
    CharsStep(t, r, 3);
    CharsStep(t, r, 2);
    CharsStep(t, r, 1);
    CharsStep(t, r, 0);
    assert t[0..] == t && t[5..] == [];
  }

  /** The state in which the descriptors of the only characteristic have been asked for. */
  ghost predicate AsksDescribed(s: State, conn: int) {
    && Inv(DESCRIBED, false, s) && s.inProgress && s.request == Some(FindDescs(Range(4, 5)))
    && s.registered == [SRV] && s.conn == conn && s.currSrv == 0 && s.currChar == 0
  }

  lemma DescribedSecond(s: State, conn: int) returns (t: State)
    requires Zeroed(s) && s.registered == [SRV]
    ensures Answers(DESCRIBED, false, FindService(SRV), Services(Some([DESCRIBED_SERVICE])))
    ensures t == Step(Start(s, conn, SUCCESS).0, Services(Some([DESCRIBED_SERVICE])))
    ensures Inv(DESCRIBED, false, t) && t.inProgress && t.request == Some(FindChars(Range(1, 5)))
    ensures t.registered == [SRV] && t.conn == conn && t.currSrv == 0 && t.currChar == 0
  {
    DescribedWellFormed();
    OnlyService(DESCRIBED, SRV);
    StartInv(DESCRIBED, false, s, conn);
    var s1 := Start(s, conn, SUCCESS).0;
    t := Step(s1, Services(Some([DESCRIBED_SERVICE])));
    StepKeeps(DESCRIBED, false, s1, Services(Some([DESCRIBED_SERVICE])));
  }

  /** Only the described characteristic is stored. */
  ghost predicate HoldsDescribed(s: State) {
    && s.Valid() && s.inProgress && s.currSrv == 0
    && s.Current().charCount == 1 && s.Current().chars[0].chr == DESCRIBED_CHAR && s.Current().range == Range(1, 5)
  }

  lemma DescribedDescs(s: State)
    requires HoldsDescribed(s) && s.currChar == 0
    ensures DescsDiscover(s, s.conn, SUCCESS) == s.(request := Some(FindDescs(Range(4, 5))))
  {
    DescsIs(s);
    assert HasGap(s.Current(), 0);
  }

  lemma DescribedAfterStore(s: State)
    requires HoldsDescribed(s) && s.currChar == 0
    ensures AfterStore(s, s.conn, SUCCESS) ==
            if MAX_CHARS == 1 then s.(request := Some(FindDescs(Range(4, 5))))
            else s.(currChar := 1, request := Some(FindChars(Range(4, 5))))
  {
    AfterStoreIs(s);
    DescribedDescs(s);
  }

  lemma DescribedStored(s: State) returns (t: State)
    requires Inv(DESCRIBED, false, s) && s.inProgress && s.request == Some(FindChars(Range(1, 5)))
    requires s.registered == [SRV] && s.currSrv == 0 && s.currChar == 0
    ensures Answers(DESCRIBED, false, FindChars(Range(1, 5)), Chars(Some([DESCRIBED_CHAR])))
    ensures t == Step(s, Chars(Some([DESCRIBED_CHAR]))) && Inv(DESCRIBED, false, t) && HoldsDescribed(t)
    ensures t.registered == [SRV] && t.conn == s.conn
    ensures if MAX_CHARS == 1 then t.request == Some(FindDescs(Range(4, 5))) && t.currChar == 0
            else t.request == Some(FindChars(Range(4, 5)))
  {
    DescribedWellFormed();
    DescribedChars(Range(1, 5));
    OnlyService(DESCRIBED, SRV);
    var first := Chars(Some([DESCRIBED_CHAR]));
    t := Step(s, first);
    StepKeeps(DESCRIBED, false, s, first);
    OnCharsIs(s, first.chars);
    DescribedHolds(s);
    DescribedAfterStore(s.SetCurrent(Store(s.Current(), [DESCRIBED_CHAR])));
  }

  lemma DescribedHolds(s: State)
    requires s.Valid() && s.inProgress && s.currSrv == 0
    requires s.Current().charCount == 0 && s.Current().range == Range(1, 5)
    ensures HoldsDescribed(s.SetCurrent(Store(s.Current(), [DESCRIBED_CHAR])))
  {
    StoreAt(s.Current(), [DESCRIBED_CHAR], 0);
  }

  lemma RunOne(t: Table, exact: bool, s: State, reply: Reply)
    requires s.inProgress && s.request.Some? && Answers(t, exact, s.request.value, reply)
    ensures Run(t, exact, s, [reply]) && Exec(s, [reply]) == Step(s, reply)
  {
    assert [reply][1..] == [];
  }

  /** The one characteristic is found, and another one looked for if there is room. */
  lemma DescribedThird(s: State, conn: int) returns (t: State, replies: seq<Reply>)
    requires Inv(DESCRIBED, false, s) && s.inProgress && s.request == Some(FindChars(Range(1, 5)))
    requires s.registered == [SRV] && s.conn == conn && s.currSrv == 0 && s.currChar == 0
    ensures Run(DESCRIBED, false, s, replies) && t == Exec(s, replies) && AsksDescribed(t, conn)
  {
    var first := Chars(Some([DESCRIBED_CHAR]));
    t := DescribedStored(s);
    RunOne(DESCRIBED, false, s, first);
    replies := [first];
    if MAX_CHARS > 1 {
      var u := DescribedSecondSearch(t);
      RunOne(DESCRIBED, false, t, Chars(None));
      RunsJoin(DESCRIBED, false, s, [first], [Chars(None)]);
      t, replies := u, [first] + [Chars(None)];
    }
  }

  lemma DescribedSecondSearch(s: State) returns (t: State)
    requires Inv(DESCRIBED, false, s) && HoldsDescribed(s) && s.request == Some(FindChars(Range(4, 5)))
    requires s.registered == [SRV]
    ensures Answers(DESCRIBED, false, FindChars(Range(4, 5)), Chars(None))
    ensures t == Step(s, Chars(None)) && AsksDescribed(t, s.conn)
  {
    DescribedWellFormed();
    DescribedChars(Range(4, 5));
    t := Step(s, Chars(None));
    StepKeeps(DESCRIBED, false, s, Chars(None));
    OnCharsIs(s, None);
    DescribedDescs(s.(currChar := 0));
  }

  /** The server answers the only descriptor request with the user description alone. */
  lemma DescribedLast(s: State, conn: int)
    requires AsksDescribed(s, conn)
    ensures var reply := Descs(Some([DESCRIBED[3]]));
            && Answers(DESCRIBED, false, FindDescs(Range(4, 5)), reply)
            && !ShowsCccd(reply) && FirstCccd(AttrsIn(DESCRIBED, Range(4, 5))) == 5
            && SettledAs(Step(s, reply), 0, 0, 0)
  {
    DescribedWellFormed();
    DescribedAttrs();
    var ds := [DESCRIBED[3]];
    assert ds <= [DESCRIBED[3], DESCRIBED[4]];
    assert [DESCRIBED[3], DESCRIBED[4]][1..] == [DESCRIBED[4]];
    assert ds[1..] == [];
    DescsReplySettlesAs(DESCRIBED, s, Descs(Some(ds)));
  }

  lemma {:induction false} RunsJoin(t: Table, exact: bool, s: State, first: seq<Reply>, rest: seq<Reply>)
    requires Run(t, exact, s, first) && Run(t, exact, Exec(s, first), rest)
    ensures Run(t, exact, s, first + rest) && Exec(s, first + rest) == Exec(Exec(s, first), rest)
    decreases |first|
  {
    if first == [] {
      assert first + rest == rest;
    } else {
      assert (first + rest)[1..] == first[1..] + rest;
      RunsJoin(t, exact, Step(s, first[0]), first[1..], rest);
    }
  }

  /** A whole discovery on the described server that delivers its characteristic without the
      configuration descriptor at handle 5. */
  lemma SplitDescriptorsLoseCccd(s: State, conn: int) returns (replies: seq<Reply>)
    requires Zeroed(s) && s.registered == [SRV]
    ensures WellFormed(DESCRIBED) && FirstCccd(AttrsIn(DESCRIBED, Range(4, 5))) == 5
    ensures Run(DESCRIBED, false, Start(s, conn, SUCCESS).0, replies) && !Final(s, conn, replies).inProgress
    ensures DeliveredCccd(Final(s, conn, replies), 0, 0) == Some(0)
  {
    DescribedWellFormed();
    var s2 := DescribedSecond(s, conn);
    var s3, middle := DescribedThird(s2, conn);
    DescribedLast(s3, conn);
    var last := Descs(Some([DESCRIBED[3]]));
    var s4 := Step(s3, last);
    StepKeeps(DESCRIBED, false, s3, last);
    WorkDecreases(DESCRIBED, false, s3, last);
    var rest := CanComplete(DESCRIBED, false, s4);
    RunSettles(DESCRIBED, false, s4, rest, 0, 0, 0);
    var tail := [last] + rest;
    assert tail[1..] == rest;
    RunsJoin(DESCRIBED, false, s2, middle, tail);
    replies := [Services(Some([DESCRIBED_SERVICE]))] + (middle + tail);
    assert replies[1..] == middle + tail;
    StartInv(DESCRIBED, false, s, conn);
  }

  // ---------- a server with more characteristics than fit ----------

  const CROWDED_END := 2 * MAX_CHARS + 4

  /** One characteristic more than fits, with declarations at handles 2, 4, .. and no
      descriptor but a configuration descriptor of the last one. */
  function CrowdedAt(i: nat): Attribute {
    if i == 0 then ServiceDecl(1, SRV, CROWDED_END)
    else if i == CROWDED_END - 1 then Other(CROWDED_END, Uuid(1, 0x2902))
    else if i % 2 == 1 then CharDecl(i + 1, CHR, i + 2)
    else Other(i + 1, CHR)
  }

  function Crowded(): Table {
    seq(CROWDED_END, i requires 0 <= i < CROWDED_END => CrowdedAt(i))
  }

  const CROWDED_RANGE := Range(1, CROWDED_END)

  function CrowdedChar(i: nat): Characteristic {
    Characteristic(CHR, 2 * i + 2, 2 * i + 3)
  }

  /** From the declaration of the n-th characteristic on. */
  function CrowdedCharsFrom(n: nat): seq<Characteristic>
    requires n <= MAX_CHARS + 1
    decreases MAX_CHARS + 1 - n
  {
    if n == MAX_CHARS + 1 then [] else [CrowdedChar(n)] + CrowdedCharsFrom(n + 1)
  }

  /** The declaration and the value of the i-th characteristic are in place. */
  predicate PairAt(t: Table, i: nat)
    requires 2 * i + 2 < |t|
  {
    t[2 * i + 1] == CharDecl(2 * i + 2, CHR, 2 * i + 3) && t[2 * i + 2] == Other(2 * i + 3, CHR)
  }

  predicate Paired(t: Table) {
    && |t| == CROWDED_END && !t[CROWDED_END - 1].CharDecl?
    && forall i: nat :: i <= MAX_CHARS ==> PairAt(t, i)
  }

  lemma CrowdedPairs()
    ensures Paired(Crowded())
  {
    forall i: nat | i <= MAX_CHARS
      ensures PairAt(Crowded(), i)
    {
    }
  }

  lemma {:induction false} PairsFrom(t: Table, n: nat, k: nat)
    requires Paired(t) && n <= MAX_CHARS + 1 && k == 2 * n + 1
    ensures CharsIn(t[k..], CROWDED_RANGE) == CrowdedCharsFrom(n)
    decreases MAX_CHARS + 1 - n
  {
    if n < MAX_CHARS + 1 {
      assert PairAt(t, n);
      PairStep(t, n, k);
      PairsFrom(t, n + 1, k + 2);
    } else {
      LastStep(t);
    }
  }

  lemma PairStep(t: Table, n: nat, k: nat)
    requires k == 2 * n + 1 && k + 1 < |t| && PairAt(t, n) && n <= MAX_CHARS
    ensures CharsIn(t[k..], CROWDED_RANGE) == [CrowdedChar(n)] + CharsIn(t[k + 2..], CROWDED_RANGE)
  {
    CharsStep(t, CROWDED_RANGE, k);
    CharsStep(t, CROWDED_RANGE, k + 1);
  }

  lemma LastStep(t: Table)
    requires |t| == CROWDED_END && !t[CROWDED_END - 1].CharDecl?
    ensures CharsIn(t[CROWDED_END - 1..], CROWDED_RANGE) == []
  {
    CharsStep(t, CROWDED_RANGE, CROWDED_END - 1);
    assert t[CROWDED_END..] == [];
  }

  lemma {:induction false} CrowdedCharAt(n: nat, i: nat)
    requires n <= MAX_CHARS + 1
    ensures |CrowdedCharsFrom(n)| == MAX_CHARS + 1 - n
    ensures i < MAX_CHARS + 1 - n ==> CrowdedCharsFrom(n)[i] == CrowdedChar(n + i)
    decreases MAX_CHARS + 1 - n
  {
    if n < MAX_CHARS + 1 {
      CrowdedCharAt(n + 1, if i == 0 then 0 else i - 1);
    }
  }

  lemma {:induction false} AttrsHold(t: Table, r: Range, i: nat)
    requires i < |t| && t[i].In(r)
    ensures t[i] in AttrsIn(t, r)
  {
    if i > 0 {
      AttrsHold(t[1..], r, i - 1);
    }
  }

  lemma CrowdedCccd(lo: int)
    requires lo <= CROWDED_END
    ensures FirstCccd(AttrsIn(Crowded(), Range(lo, CROWDED_END))) == CROWDED_END
  {
    var t := Crowded();
    var all := AttrsIn(t, Range(lo, CROWDED_END));
    AttrsFacts(t, Range(lo, CROWDED_END));
    AttrsHold(t, Range(lo, CROWDED_END), CROWDED_END - 1);
    assert t[CROWDED_END - 1] in all && t[CROWDED_END - 1].IsCccd();
    assert forall a :: a in t && a.IsCccd() ==> a.handle == CROWDED_END;
    FirstCccdIsFirst(all);
  }

  lemma CrowdedWellFormed()
    ensures WellFormed(Crowded())
  {
    forall i | 0 <= i < |Crowded()|
      ensures ValueFollows(Crowded(), i)
    {
    }
    assert forall i :: 0 <= i < |Crowded()| ==> Crowded()[i].handle == i + 1;
    assert forall i :: 0 <= i < |Crowded()| && Crowded()[i].ServiceDecl? ==> i == 0;
    assert forall i :: 0 <= i < |Crowded()| && Crowded()[i].CharDecl? ==> Crowded()[i].value <= CROWDED_END - 1;
  }

  /** On this server even a discovery that misses no descriptor delivers the last stored
      characteristic, which has none, with the configuration descriptor of the dropped one. */
  lemma CrowdedServiceMisattributes(s: State, conn: int, replies: seq<Reply>)
    requires Zeroed(s) && s.registered == [SRV]
    requires Run(Crowded(), true, Start(s, conn, SUCCESS).0, replies) && !Final(s, conn, replies).inProgress
    ensures var cs := CharsIn(Crowded(), CROWDED_RANGE);
            && |cs| == MAX_CHARS + 1
            && AttrsIn(Crowded(), Range(cs[MAX_CHARS - 1].value + 1, cs[MAX_CHARS].decl - 1)) == []
            && cs[MAX_CHARS] == Characteristic(CHR, CROWDED_END - 2, CROWDED_END - 1)
    ensures DeliveredCccd(Final(s, conn, replies), 0, MAX_CHARS - 1) == Some(CROWDED_END)
  {
    CrowdedWellFormed();
    CrowdedService();
    LastGetsDropped(Crowded(), CROWDED_RANGE, s, conn, replies);
  }

  lemma LastGetsDropped(t: Table, r: Range, s: State, conn: int, replies: seq<Reply>)
    requires WellFormed(t) && Zeroed(s) && s.registered == [SRV] && ServicesOf(t, SRV) == [FoundService(SRV, r)]
    requires Run(t, true, Start(s, conn, SUCCESS).0, replies) && !Final(s, conn, replies).inProgress
    requires MAX_CHARS < |CharsIn(t, r)|
    requires OwnCccd(t, r) == 0
    ensures DeliveredCccd(Final(s, conn, replies), 0, MAX_CHARS - 1) == Some(OtherCccd(t, r))
  {
    assert ServicesOf(t, s.registered[0])[0].range == r;
    LastCccdIsOwnIff(t, true, s, conn, replies, 0);
  }

  lemma CrowdedService()
    ensures ServicesOf(Crowded(), SRV) == [FoundService(SRV, CROWDED_RANGE)]
    ensures var cs := CharsIn(Crowded(), CROWDED_RANGE);
            && |cs| == MAX_CHARS + 1
            && AttrsIn(Crowded(), Range(cs[MAX_CHARS - 1].value + 1, cs[MAX_CHARS].decl - 1)) == []
            && cs[MAX_CHARS] == Characteristic(CHR, CROWDED_END - 2, CROWDED_END - 1)
            && OwnCccd(Crowded(), CROWDED_RANGE) == 0 && OtherCccd(Crowded(), CROWDED_RANGE) == CROWDED_END
  {
    OnlyService(Crowded(), SRV);
    CrowdedChars();
    CrowdedCccd(CROWDED_END - 2);
    AttrsFacts(Crowded(), Range(CROWDED_END - 2, CROWDED_END - 3));
  }

  lemma CrowdedChars()
    ensures var cs := CharsIn(Crowded(), CROWDED_RANGE);
            && |cs| == MAX_CHARS + 1
            && cs[MAX_CHARS - 1] == CrowdedChar(MAX_CHARS - 1) && cs[MAX_CHARS] == CrowdedChar(MAX_CHARS)
  {
    CharsStep(Crowded(), CROWDED_RANGE, 0);
    assert Crowded()[0..] == Crowded();
    CrowdedPairs();
    PairsFrom(Crowded(), 0, 1);
    CrowdedCharAt(0, MAX_CHARS);
    CrowdedCharAt(0, MAX_CHARS - 1);
  }

  /** There is such a discovery. */
  lemma CrowdedRun(s: State, conn: int) returns (replies: seq<Reply>)
    requires Zeroed(s) && s.registered == [SRV]
    ensures Run(Crowded(), true, Start(s, conn, SUCCESS).0, replies) && !Final(s, conn, replies).inProgress
  {
    CrowdedWellFormed();
    StartInv(Crowded(), true, s, conn);
    replies := CanComplete(Crowded(), true, Start(s, conn, SUCCESS).0);
  }
}
