/** The database discovery module with its static arrays and counters updated in place.
    Every method is proved equal to a step of DiscoveryModel. */
module Discovery {
  import opened Options
  import opened AttributeTable
  import opened DiscoveryModel
  import opened DiscoveryRuns
  import opened DiscoveryTheorems
  import opened DiscoveryExactness
  import DiscoveryControl

  const NO_CHAR := DbChar(Characteristic(Uuid(0, 0), 0, 0), 0)
  const NO_SERVICE := Service(Uuid(0, 0), Range(0, 0), 0, seq(MAX_CHARS, _ => NO_CHAR))

  /** Entry of the copy loop: the new characteristics are in place below index `i`. */
  ghost function StoredUpTo(c: Service, cs: seq<Characteristic>, total: nat, i: nat): Service
    requires c.Valid() && c.charCount <= i <= total <= MAX_CHARS && total - c.charCount <= |cs|
  {
    c.(charCount := total,
       chars := c.chars[..c.charCount] + Unresolved(cs[..i - c.charCount]) + c.chars[i..])
  }

  lemma StoreOne(c: Service, cs: seq<Characteristic>, total: nat, i: nat)
    requires c.Valid() && c.charCount <= i < total <= MAX_CHARS && total - c.charCount <= |cs|
    ensures var s := StoredUpTo(c, cs, total, i);
            |s.chars| == MAX_CHARS &&
            s.(chars := s.chars[i := DbChar(cs[i - c.charCount], 0)]) == StoredUpTo(c, cs, total, i + 1)
  {
  }

  lemma NothingCopied(c: Service, cs: seq<Characteristic>, total: nat)
    requires c.Valid() && c.charCount <= total <= MAX_CHARS && total - c.charCount <= |cs|
    ensures StoredUpTo(c, cs, total, c.charCount) == c.(charCount := total)
  {
    assert Unresolved(cs[..0]) == [];
  }

  lemma AllCopied(c: Service, cs: seq<Characteristic>, total: nat)
    requires c.Valid() && |cs| < 0x100
    requires total == if c.charCount + |cs| <= MAX_CHARS then c.charCount + |cs| else MAX_CHARS
    ensures StoredUpTo(c, cs, total, total) == Store(c, cs)
  {
  }

  class DbDiscovery {
    // module statics
    const handlers: array<Uuid>
    var numHandlers: nat
    const slots: array<Event>
    var index: nat
    // the discovery structure
    const services: array<Service>
    var currChar: nat
    var currSrv: nat
    var inProgress: bool
    var count: nat
    var conn: int
    // what the application has been told, and the SoftDevice's outstanding request
    var delivered: seq<Event>
    var request: Option<Request>

    ghost function Snapshot(): State
      reads this, handlers, slots, services
      requires numHandlers <= handlers.Length
    {
      State(handlers[..numHandlers], services[..], currChar, currSrv, inProgress, count, conn,
            slots[..], index, delivered, request)
    }

    ghost predicate Valid()
      reads this, handlers, slots, services
    {
      && handlers.Length == slots.Length == services.Length == MAX_SERVICES
      && numHandlers <= MAX_SERVICES
      && Snapshot().Valid()
    }

    constructor ()
      ensures Valid() && fresh(handlers) && fresh(slots) && fresh(services)
      ensures numHandlers == 0 && !inProgress && request == None && delivered == []
      ensures currChar == 0 && forall i :: 0 <= i < MAX_SERVICES ==> services[i] == NO_SERVICE
    {
      handlers := new Uuid[MAX_SERVICES](_ => Uuid(0, 0));
      slots := new Event[MAX_SERVICES](_ => Event(Complete, 0, NO_SERVICE));
      services := new Service[MAX_SERVICES](_ => NO_SERVICE);
      numHandlers, index, currChar, currSrv, count, conn := 0, 0, 0, 0, 0, 0;
      inProgress, delivered, request := false, [], None;
    }

    // ---------- registration ----------

    method RegisteredHandlerGet(u: Uuid) returns (found: bool)
      requires Valid()
      ensures found <==> u in Snapshot().registered
    {
      var i := 0;
      while i < numHandlers
        invariant 0 <= i <= numHandlers
        invariant u !in handlers[..i]
      {
        if handlers[i] == u {
          return true;
        }
        i := i + 1;
      }
      return false;
    }

    method Register(u: Uuid) returns (code: int)
      requires Valid()
      modifies this, handlers
      ensures Valid() && (Snapshot(), code) == DiscoveryModel.Register(old(Snapshot()), u)
      ensures code == SUCCESS <==> old(u in Snapshot().registered || numHandlers < MAX_SERVICES)
      ensures code == SUCCESS ==> u in Snapshot().registered
      ensures old(DiscoveryControl.Distinct(Snapshot().registered)) ==> DiscoveryControl.Distinct(Snapshot().registered)
    {
      if DiscoveryControl.Distinct(Snapshot().registered) {
        DiscoveryControl.RegisterMeans(Snapshot(), u);
      }
      var known := RegisteredHandlerGet(u);
      if known {
        return SUCCESS;
      }
      if numHandlers < MAX_SERVICES {
        handlers[numHandlers] := u;
        numHandlers := numHandlers + 1;
        assert handlers[..numHandlers] == old(handlers[..numHandlers]) + [u];
        return SUCCESS;
      } else {
        return ERROR_NO_MEM;
      }
    }

    method Start(connHandle: int, sd: int) returns (code: int)
      requires Valid()
      modifies this, services
      ensures Valid() && (Snapshot(), code) == DiscoveryModel.Start(old(Snapshot()), connHandle, sd)
      ensures old(inProgress) || numHandlers == 0 ==> code != SUCCESS && Snapshot() == old(Snapshot())
    {
      if numHandlers == 0 {
        return ERROR_INVALID_STATE;
      }
      if inProgress {
        return ERROR_BUSY;
      }
      conn := connHandle;
      index := 0;
      count := 0;
      currSrv := 0;
      services[currSrv] := services[currSrv].(uuid := handlers[currSrv]);
      if sd != SUCCESS {
        return sd;
      }
      request := Some(FindService(services[currSrv].uuid));
      inProgress := true;
      return SUCCESS;
    }

    method OnDisconnected(connHandle: int)
      requires Valid()
      modifies this
      ensures Valid() && Snapshot() == DiscoveryModel.OnDisconnected(old(Snapshot()), connHandle)
      ensures connHandle == conn ==> !inProgress && request == None && delivered == old(delivered)
    {
      if connHandle == conn {
        inProgress := false;
        request := None;
      }
    }

    // ---------- events ----------

    method PendingUserEvtsSend()
      requires Valid()
      modifies this
      ensures Valid()
      ensures Snapshot() == old(Snapshot()).(delivered := old(delivered) + slots[..numHandlers], index := 0)
    {
      var i := 0;
      while i < numHandlers
        invariant 0 <= i <= numHandlers == old(numHandlers)
        invariant Valid()
        invariant Snapshot() == old(Snapshot()).(delivered := old(delivered) + slots[..i])
      {
        delivered := delivered + [slots[i]];
        i := i + 1;
        assert slots[..i] == slots[..i - 1] + [slots[i - 1]];
      }
      index := 0;
    }

    method DiscoveryCompleteEvtTrigger(found: bool, connHandle: int)
      requires Valid()
      modifies this, slots
      ensures Valid() && Snapshot() == QueueEvent(old(Snapshot()), found, connHandle)
    {
      var known := RegisteredHandlerGet(services[currSrv].uuid);
      if known && index < MAX_SERVICES {
        slots[index] := Event(if found then Complete else NotFound, connHandle, services[currSrv]);
        index := index + 1;
        if index == numHandlers {
          PendingUserEvtsSend();
        }
      }
    }

    /** A refused request: discovery_error_evt_trigger and the lines around it. */
    method StopWithError(connHandle: int, code: int)
      requires Valid()
      modifies this, slots
      ensures Valid() && Snapshot() == ErrorExit(old(Snapshot()), connHandle, code)
    {
      inProgress := false;
      request := None;
      var known := RegisteredHandlerGet(services[currSrv].uuid);
      if known {
        delivered := delivered + [ErrorEvent(connHandle, code)];
      }
      slots[0] := slots[0].(kind := Available, conn := connHandle);
    }

    method SoftDeviceRequest(connHandle: int, req: Request, sd: int)
      requires Valid()
      modifies this, slots
      ensures Valid() && Snapshot() == Issue(old(Snapshot()), connHandle, req, sd)
    {
      if sd != SUCCESS {
        StopWithError(connHandle, sd);
      } else {
        request := Some(req);
      }
    }

    method OnSrvDiscCompletion(connHandle: int, sd: int)
      requires Valid() && inProgress
      modifies this, slots, services
      ensures Valid() && Snapshot() == NextService(old(Snapshot()), connHandle, sd)
    {
      count := count + 1;
      if count < numHandlers {
        currChar := 0;
        currSrv := currSrv + 1;
        services[currSrv] := services[currSrv].(uuid := handlers[currSrv], charCount := 0);
        SoftDeviceRequest(connHandle, FindService(services[currSrv].uuid), sd);
      } else {
        inProgress := false;
        request := None;
        slots[0] := slots[0].(kind := Available, conn := connHandle);
      }
    }

    method FinishService(found: bool, connHandle: int, sd: int)
      requires Valid() && inProgress
      modifies this, slots, services
      ensures Valid() && Snapshot() == Finish(old(Snapshot()), found, connHandle, sd)
    {
      DiscoveryCompleteEvtTrigger(found, connHandle);
      OnSrvDiscCompletion(connHandle, sd);
    }

    // ---------- requests ----------

    method CharacteristicsDiscover(connHandle: int, sd: int)
      requires Valid()
      modifies this, slots
      ensures Valid() && Snapshot() == CharsDiscover(old(Snapshot()), connHandle, sd)
    {
      var c := services[currSrv];
      var start := c.range.start;
      if currChar != 0 {
        start := U16(c.chars[currChar - 1].chr.value + 1);
      }
      SoftDeviceRequest(connHandle, FindChars(Range(start, c.range.end)), sd);
    }

    /** The gap between characteristic `i` and its successor, if there is one. */
    method IsDescDiscoveryReqd(i: nat, last: bool) returns (gap: Option<Range>)
      requires Valid() && i < services[currSrv].charCount
      requires last <==> i == services[currSrv].charCount - 1
      ensures gap.Some? <==> HasGap(services[currSrv], i)
      ensures gap.Some? ==> gap.value == Gap(services[currSrv], i)
    {
      var c := services[currSrv];
      if last {
        if c.chars[i].chr.value == c.range.end {
          return None;
        }
        return Some(Range(U16(c.chars[i].chr.value + 1), c.range.end));
      }
      if c.chars[i].chr.value + 1 == c.chars[i + 1].chr.decl {
        return None;
      }
      return Some(Range(U16(c.chars[i].chr.value + 1), U16(c.chars[i + 1].chr.decl - 1)));
    }

    method DescriptorsDiscover(connHandle: int, sd: int)
      requires Valid() && inProgress && currChar <= services[currSrv].charCount
      modifies this, slots, services
      ensures Valid() && Snapshot() == DescsDiscover(old(Snapshot()), connHandle, sd)
    {
      ghost var first := currChar;
      var c := services[currSrv];
      var gap: Option<Range> := None;
      if currChar + 1 == c.charCount {
        gap := IsDescDiscoveryReqd(currChar, true);
      } else {
        var i := currChar;
        while i < c.charCount
          invariant first <= i == currChar <= c.charCount
          invariant Valid() && c == services[currSrv] && gap == None
          invariant Snapshot() == old(Snapshot()).(currChar := i)
          invariant NextGap(c, first) == NextGap(c, i)
        {
          gap := IsDescDiscoveryReqd(i, i == c.charCount - 1);
          if gap.Some? {
            break;
          }
          currChar := currChar + 1;
          i := i + 1;
        }
      }
      if gap.None? {
        FinishService(true, connHandle, sd);
      } else {
        SoftDeviceRequest(connHandle, FindDescs(gap.value), sd);
      }
    }

    // ---------- response handlers ----------

    method OnPrimarySrvDiscoveryRsp(connHandle: int, found: Option<seq<FoundService>>, sd: int)
      requires Valid()
      requires connHandle == conn ==> inProgress && (found.Some? ==> found.value != [])
      modifies this, slots, services
      ensures Valid() && Snapshot() == OnServices(old(Snapshot()), connHandle, found, sd)
    {
      if connHandle != conn {
        return;
      }
      if found.Some? {
        var f := found.value[0];
        services[currSrv] := services[currSrv].(uuid := f.uuid, range := f.range);
        CharacteristicsDiscover(connHandle, sd);
      } else {
        FinishService(false, connHandle, sd);
      }
    }

    /** The new characteristics of a response, as many as fit. */
    method StoreCharacteristics(cs: seq<Characteristic>)
      requires Valid() && |cs| < 0x100
      modifies services
      ensures Valid()
      ensures Snapshot() == old(Snapshot()).SetCurrent(Store(old(services[currSrv]), cs))
    {
      var prev := services[currSrv].charCount;
      var n := U8(|cs|);
      ghost var was := services[currSrv];
      if prev + n <= MAX_CHARS {
        services[currSrv] := services[currSrv].(charCount := prev + n);
      } else {
        services[currSrv] := services[currSrv].(charCount := MAX_CHARS);
      }
      NothingCopied(was, cs, services[currSrv].charCount);
      CopyCharacteristics(cs, prev, was);
      AllCopied(was, cs, services[currSrv].charCount);
    }

    /** The copy loop. */
    method CopyCharacteristics(cs: seq<Characteristic>, prev: nat, ghost was: Service)
      requires services.Length > currSrv && was.Valid() && prev == was.charCount
      requires prev <= services[currSrv].charCount <= MAX_CHARS && services[currSrv].charCount - prev <= |cs|
      requires services[currSrv] == StoredUpTo(was, cs, services[currSrv].charCount, prev)
      modifies services
      ensures var total := old(services[currSrv].charCount);
              services[..] == old(services[..])[currSrv := StoredUpTo(was, cs, total, total)]
    {
      ghost var total := services[currSrv].charCount;
      var i, j := prev, 0;
      while i < services[currSrv].charCount
        invariant prev <= i <= total && j == i - prev
        invariant services[currSrv] == StoredUpTo(was, cs, total, i)
        invariant forall k :: 0 <= k < services.Length && k != currSrv ==> services[k] == old(services[k])
      {
        StoreOne(was, cs, total, i);
        services[currSrv] := services[currSrv].(chars := services[currSrv].chars[i := DbChar(cs[j], 0)]);
        i, j := i + 1, j + 1;
      }
    }

    method OnCharacteristicDiscoveryRsp(connHandle: int, chars: Option<seq<Characteristic>>, sd: int)
      requires Valid()
      requires connHandle == conn ==> inProgress && (chars.Some? ==> 1 <= |chars.value| < 0x100)
      modifies this, slots, services
      ensures Valid() && Snapshot() == OnChars(old(Snapshot()), connHandle, chars, sd)
    {
      if connHandle != conn {
        return;
      }
      var descs := false;
      if chars.Some? {
        StoreCharacteristics(chars.value);
        var c := services[currSrv];
        if !(c.chars[c.charCount - 1].chr.value < c.range.end) || c.charCount == MAX_CHARS {
          descs := true;
        } else {
          currChar := c.charCount;
          CharacteristicsDiscover(connHandle, sd);
        }
      } else {
        descs := true;
      }
      if descs {
        currChar := 0;
        DescriptorsDiscover(connHandle, sd);
      }
    }

    /** The search loop of the descriptor response. */
    method StoreCccd(ds: seq<Attribute>)
      requires Valid() && currChar < services[currSrv].charCount
      modifies services
      ensures Valid()
      ensures Snapshot() == old(Snapshot()).SetCurrent(WithCccd(old(services[currSrv]), currChar, ds))
    {
      var i := 0;
      while i < |ds|
        invariant 0 <= i <= |ds|
        invariant forall k :: 0 <= k < i ==> !ds[k].IsCccd()
        invariant FirstCccd(ds) == FirstCccd(ds[i..])
        invariant services[..] == old(services[..])
      {
        if ds[i].IsCccd() {
          var c := services[currSrv];
          services[currSrv] := c.(chars := c.chars[currChar := c.chars[currChar].(cccd := ds[i].handle)]);
          assert ds[i] in ds;
          return;
        }
        i := i + 1;
      }
    }

    method OnDescriptorDiscoveryRsp(connHandle: int, descs: Option<seq<Attribute>>, sd: int)
      requires Valid()
      requires connHandle == conn ==> inProgress && currChar < services[currSrv].charCount
      modifies this, slots, services
      ensures Valid() && Snapshot() == OnDescs(old(Snapshot()), connHandle, descs, sd)
    {
      if connHandle != conn {
        return;
      }
      if descs.Some? {
        StoreCccd(descs.value);
      }
      TurnToNextCharacteristic(connHandle, sd);
    }

    /** The end of the descriptor handler. */
    method TurnToNextCharacteristic(connHandle: int, sd: int)
      requires Valid() && inProgress && currChar < services[currSrv].charCount
      modifies this, slots, services
      ensures Valid() && Snapshot() == AfterDescs(old(Snapshot()), connHandle, sd)
    {
      AfterDescsIs(Snapshot(), connHandle, sd);
      if currChar + 1 == services[currSrv].charCount {
        FinishService(true, connHandle, sd);
      } else {
        currChar := currChar + 1;
        assert Snapshot() == old(Snapshot()).(currChar := old(currChar) + 1);
        DescriptorsDiscover(connHandle, sd);
      }
    }

    /** The switch on the event identifier. An answer of a conforming server `t` to the
        outstanding request keeps the discovery's invariant and brings it closer to its end. */
    method OnBleEvt(evt: BleEvt, sd: int, ghost t: Table, ghost exact: bool)
      requires Valid()
      requires evt.Response? && evt.conn == conn ==> Ready(Snapshot(), evt.reply)
      modifies this, slots, services
      ensures Valid() && Snapshot() == OnEvent(old(Snapshot()), evt, sd)
      ensures evt.Disconnected? && evt.conn == conn ==> !inProgress && request == None && delivered == old(delivered)
      ensures !evt.OtherEvt? && evt.conn != conn ==> Snapshot() == old(Snapshot())
      ensures old(Expects(t, exact, evt)) && sd == SUCCESS ==>
                Inv(t, exact, Snapshot()) && 0 <= Work(Snapshot()) < old(Work(Snapshot()))
      ensures old(Expects(t, exact, evt)) && sd != SUCCESS ==>
                Refused(OnEvent(old(Snapshot()), evt, SUCCESS), Snapshot(), conn, sd)
    {
      if Expects(t, exact, evt) {
        ExpectedStep(t, exact, Snapshot(), evt.reply, sd);
      }
      match evt {
        case Response(connHandle, reply) => OnResponse(connHandle, reply, sd);
        case Disconnected(connHandle) => OnDisconnected(connHandle);
        case OtherEvt =>
      }
    }

    method OnResponse(connHandle: int, reply: Reply, sd: int)
      requires Valid()
      requires connHandle == conn ==> Ready(Snapshot(), reply)
      modifies this, slots, services
      ensures Valid() && Snapshot() == OnEvent(old(Snapshot()), Response(connHandle, reply), sd)
    {
      match reply {
        case Services(found) => OnPrimarySrvDiscoveryRsp(connHandle, found, sd);
        case Chars(chars) => OnCharacteristicDiscoveryRsp(connHandle, chars, sd);
        case Descs(descs) => OnDescriptorDiscoveryRsp(connHandle, descs, sd);
      }
    }

    /** The event answers the outstanding request of a discovery on `t`. */
    ghost predicate Expects(t: Table, exact: bool, evt: BleEvt)
      reads this, handlers, slots, services
      requires Valid()
    {
      && WellFormed(t) && Inv(t, exact, Snapshot()) && inProgress
      && evt.Response? && evt.conn == conn && Answers(t, exact, Snapshot().request.value, evt.reply)
    }
  }

  lemma ExpectedStep(t: Table, exact: bool, s: State, reply: Reply, sd: int)
    requires WellFormed(t) && Inv(t, exact, s) && s.inProgress && Answers(t, exact, s.request.value, reply)
    ensures Inv(t, exact, Step(s, reply)) && 0 <= Work(Step(s, reply)) < Work(s)
    ensures sd != SUCCESS ==> Refused(Step(s, reply), StepWith(s, reply, sd), s.conn, sd)
  {
    StepKeeps(t, exact, s, reply);
    WorkDecreases(t, exact, s, reply);
    if sd != SUCCESS {
      RefusalStops(t, exact, s, reply, sd);
    }
  }

  /** A whole discovery on the stateful code: the start and one handler call per response. */
  method Discover(db: DbDiscovery, connHandle: int, replies: seq<Reply>, ghost t: Table, ghost exact: bool)
    requires db.Valid() && WellFormed(t) && Zeroed(db.Snapshot())
    requires Run(t, exact, DiscoveryModel.Start(db.Snapshot(), connHandle, SUCCESS).0, replies)
    modifies db, db.slots, db.services
    ensures db.Valid() && |replies| <= db.numHandlers * STEPS_PER_SERVICE
    ensures db.Snapshot() == Final(old(db.Snapshot()), connHandle, replies)
    ensures if db.inProgress then db.delivered == [] && CanGoOn(t, exact, db.Snapshot())
            else AllGood(t, exact, old(db.Snapshot()).registered, connHandle, db.delivered)
    ensures !db.inProgress && exact ==> AllRefine(t, old(db.Snapshot()).registered, db.delivered)
  {
    ghost var s := db.Snapshot();
    StartInv(t, exact, s, connHandle);
    DiscoveryDelivers(t, exact, s, connHandle, replies);
    var _ := db.Start(connHandle, SUCCESS);
    var i := 0;
    while i < |replies|
      invariant 0 <= i <= |replies| && db.Valid() && db.conn == connHandle
      invariant Inv(t, exact, db.Snapshot()) && Run(t, exact, db.Snapshot(), replies[i..])
      invariant Exec(db.Snapshot(), replies[i..]) == Final(s, connHandle, replies)
      invariant db.Snapshot().registered == s.registered
    {
      assert replies[i..][0] == replies[i] && replies[i..][1..] == replies[i + 1..];
      AnswersAreReady(t, exact, db.Snapshot(), replies[i]);
      db.OnBleEvt(Response(connHandle, replies[i]), SUCCESS, t, exact);
      i := i + 1;
    }
    assert replies[i..] == [];
    if exact && !db.inProgress {
      DiscoveryRefinesOnePass(t, s, connHandle, replies);
    }
  }
}
