/** What comes of the button, the timers and the radio on one bracelet, several steps on. */
module DeviceOutcomes {
  import opened Friends
  import opened Device

  lemma AfterOne(d: Dev, i: Input)
    ensures After(d, [i]) == React(d, i)
  {
    assert [i][1..] == [];
  }

  lemma AfterTwo(d: Dev, i: Input, j: Input)
    ensures After(d, [i, j]) == React(React(d, i), j)
  {
    assert [i, j][1..] == [j];
    AfterOne(React(d, i), j);
  }

  lemma AfterThree(d: Dev, i: Input, j: Input, k: Input)
    ensures After(d, [i, j, k]) == React(React(React(d, i), j), k)
  {
    assert [i, j, k][1..] == [j, k];
    AfterTwo(React(d, i), j, k);
  }

  lemma {:induction false} AfterAppend(d: Dev, first: seq<Input>, rest: seq<Input>)
    ensures After(d, first + rest) == After(After(d, first), rest)
    decreases |first|
  {
    if first == [] {
      assert first + rest == rest;
    } else {
      assert (first + rest)[1..] == first[1..] + rest;
      AfterAppend(React(d, first[0]), first[1..], rest);
    }
  }

  // ---------- a pairing that fails ----------

  /** A pairing has begun. */
  predicate InPairing(d: Dev) {
    d.fsm == Connectable || d.fsm == AddFriend || d.fsm == AcceptFriend
  }

  /** Back in the on state with no trace of the pairing, everybody's friend as before. */
  predicate BackFrom(d: Dev, e: Dev) {
    && e.fsm == On && e.sig == JewelbotOn && e.adv == NonConn && Idle(e)
    && e.friends == d.friends && e.pending == d.pending && e.saving == d.saving
  }

  lemma TurnsToDecline(d: Dev, usb: bool)
    requires InPairing(d) && GivesUp(d.sig)
    ensures var e := Dispatched(d, usb);
            e == d.(fsm := DeclineFriend, cycle := e.cycle)
  {
    match d.fsm
    case Connectable => assert ConnectableState(d) == d.(fsm := DeclineFriend);
    case AddFriend => assert AddFriendState(d) == d.(fsm := DeclineFriend, cycle := false);
    case AcceptFriend => assert AcceptFriendState(d) == d.(fsm := DeclineFriend, cycle := false);
  }

  lemma DeclineReturns(d: Dev, usb: bool)
    requires d.fsm == DeclineFriend && GivesUp(d.sig)
    ensures BackFrom(d, Dispatched(d, usb))
  {
    assert Dispatched(d, usb) == DeclineFriendState(d);
  }

  /** A dispatch after giving up goes to the decline state and from there back. */
  predicate GivingUpGoesOn(d: Dev, e: Dev) {
    && (InPairing(d) ==> e.fsm == DeclineFriend && e.sig == d.sig)
    && (d.fsm == DeclineFriend ==> BackFrom(d, e))
  }

  lemma GivingUpStep(d: Dev, usb: bool)
    requires GivesUp(d.sig)
    ensures GivingUpGoesOn(d, Dispatched(d, usb))
  {
    if InPairing(d) {
      TurnsToDecline(d, usb);
    } else if d.fsm == DeclineFriend {
      DeclineReturns(d, usb);
    }
  }

  /** A pairing that is given up, wherever it is, ends within two dispatches. */
  lemma GivingUpReturns(d: Dev, usb: bool, usb': bool)
    requires InPairing(d) && (d.sig == Declining || d.sig == MoveOutOfRange)
    ensures BackFrom(d, After(d, [Dispatch(usb), Dispatch(usb')]))
  {
    AfterTwo(d, Dispatch(usb), Dispatch(usb'));
    TurnsToDecline(d, usb);
    DeclineReturns(Dispatched(d, usb), usb');
  }

  /** The timeout of a pairing ends it within two dispatches; outside a pairing it does nothing. */
  lemma TimeoutReturns(d: Dev, usb: bool, usb': bool)
    requires InPairing(d)
    ensures d.sig in {WaitingForConnectee, ConnecteeFound, Adding, Accepting, ButtonPressLong} ==>
              BackFrom(d, After(d, [DeclineTimeout, Dispatch(usb), Dispatch(usb')]))
    ensures d.sig !in {WaitingForConnectee, ConnecteeFound, Adding, Accepting, ButtonPressLong} ==>
              React(d, DeclineTimeout) == d
  {
    AfterThree(d, DeclineTimeout, Dispatch(usb), Dispatch(usb'));
    if d.sig in {WaitingForConnectee, ConnecteeFound, Adding, Accepting, ButtonPressLong} {
      var e := React(d, DeclineTimeout);
      assert e == d.(sig := Declining);
      GivingUpReturns(e, usb, usb');
      AfterTwo(e, Dispatch(usb), Dispatch(usb'));
    }
  }

  /** Accepting without a peer sends the offer but ends in the on state all the same. */
  lemma NoPeerReturns(d: Dev, usb: bool, usb': bool, usb'': bool)
    requires d.fsm == AddFriend && d.pending == 0 && d.sig != Adding && !GivesUp(d.sig)
    ensures BackFrom(d, After(d, [Dispatch(usb), Dispatch(usb'), Dispatch(usb'')]))
    ensures d.sig == Accepting ==> React(d, Dispatch(usb)).adv == Ff(d.color)
  {
    AfterThree(d, Dispatch(usb), Dispatch(usb'), Dispatch(usb''));
    var e := AddFriendState(d);
    assert e.sig == MoveOutOfRange && InPairing(e) && e.friends == d.friends;
    assert e.pending == d.pending && e.saving == d.saving;
    GivingUpReturns(e, usb', usb'');
    AfterTwo(e, Dispatch(usb'), Dispatch(usb''));
  }

  // ---------- the button ----------

  /** From the on state a release leads to friend finding iff it was long, to the message mode
      iff it was of middle length, and powers down iff it was very long; a tap does nothing. */
  lemma PressInOnState(d: Dev, ticks: int, usb: bool, usb': bool)
    requires d.fsm == On && d.sig == JewelbotOn
    ensures var e := After(d, [Button(ticks, usb), Dispatch(usb')]);
            PressLeadsTo(d, ticks, usb', e)
  {
    AfterTwo(d, Button(ticks, usb), Dispatch(usb'));
    PressSignalsInOnState(d, ticks, usb);
    var p := Pressed(d, ticks, usb);
    OnStateLeaves(p, usb');
    SignalDecides(d, ticks, usb', p, Dispatched(p, usb'));
  }

  predicate PressLeadsTo(d: Dev, ticks: int, usb: bool, e: Dev) {
    && (e.fsm == Connectable <==> 65000 <= ticks < 160000)
    && (e.fsm == Connectable ==> e == d.(fsm := Connectable, sig := WaitingForConnectee, adv := ConnectableAdv))
    && (e.fsm == Elsewhere <==> 1500 <= ticks < 65000 || 160000 <= ticks)
    && (e.fsm == Connectable || e.fsm == Elsewhere || e == d.(sig := if usb then Charging else JewelbotOn))
  }

  /** Where the on state goes by its signal. */
  predicate OnStateGoes(d: Dev, usb: bool, e: Dev) {
    && (e.fsm == Connectable <==> d.sig == ButtonPressLong)
    && (e.fsm == Connectable ==> e == d.(fsm := Connectable, sig := WaitingForConnectee, adv := ConnectableAdv))
    && (e.fsm == Elsewhere <==> d.sig in {MsgReceived, ButtonPress, MsgMode, BondWithMaster, Charging, PowerDown})
    && (e.fsm == Elsewhere ==> e == d.(fsm := Elsewhere))
    && (e.fsm != Connectable && e.fsm != Elsewhere ==>
          e == d.(sig := if d.sig == JewelbotOn && usb then Charging else d.sig))
  }

  lemma SignalDecides(d: Dev, ticks: int, usb: bool, p: Dev, e: Dev)
    requires OnStateGoes(p, usb, e) && p == d.(sig := p.sig)
    requires p.sig == JewelbotOn <==> ticks < 1500
    requires p.sig == MsgMode <==> 1500 <= ticks < 65000
    requires p.sig == ButtonPressLong <==> 65000 <= ticks < 160000
    requires p.sig == PowerDown <==> 160000 <= ticks
    ensures PressLeadsTo(d, ticks, usb, e)
  {
  }

  lemma PressSignalsInOnState(d: Dev, ticks: int, usb: bool)
    requires d.fsm == On && d.sig == JewelbotOn
    ensures var p := Pressed(d, ticks, usb);
            && p == d.(sig := p.sig)
            && (p.sig == JewelbotOn <==> ticks < 1500)
            && (p.sig == MsgMode <==> 1500 <= ticks < 65000)
            && (p.sig == ButtonPressLong <==> 65000 <= ticks < 160000)
            && (p.sig == PowerDown <==> 160000 <= ticks)
  {
  }

  /** Which signals lead out of the on state, and where to. */
  lemma OnStateLeaves(d: Dev, usb: bool)
    requires d.fsm == On
    ensures OnStateGoes(d, usb, Dispatched(d, usb))
  {
    assert Dispatched(d, usb) == OnState(d, usb);
    OnStateOutcome(d, usb);
  }

  lemma OnStateOutcome(d: Dev, usb: bool)
    requires d.fsm == On
    ensures OnStateGoes(d, usb, OnState(d, usb))
  {
  }

  /** On the charger an idle bracelet leaves the on state within two dispatches. */
  lemma ChargerLeavesOn(d: Dev, usb: bool)
    requires d.fsm == On && d.sig == JewelbotOn
    ensures After(d, [Dispatch(true), Dispatch(usb)]) == d.(fsm := Elsewhere, sig := Charging)
    ensures React(d, Dispatch(false)) == d
  {
    AfterTwo(d, Dispatch(true), Dispatch(usb));
    OnStateLeaves(d, true);
    OnStateLeaves(d, false);
    var e := d.(sig := Charging);
    assert React(d, Dispatch(true)) == e;
    OnStateLeaves(e, usb);
  }

  /** The signals that a press of 1500 ticks or more takes to the on signal. */
  predicate Cancelled(sig: Signal) {
    sig in {ButtonPress, ButtonPressLong, PowerDown, Accepting, Declining, MoveOutOfRange, WaitingForConnectee,
            MsgReceived, BondWithMaster, OtherSignal}
  }

  /** Which releases lead to each signal. */
  lemma PressReaches(sig: Signal, asCentral: bool, ticks: int, usb: bool)
    ensures var next := PressSignal(sig, asCentral, ticks, usb);
            && (next == Accepting <==> sig == Adding || (sig == Accepting && ticks < 1500))
            && (next == Adding <==> sig == ConnecteeFound && asCentral)
            && (next == ConnecteeFound <==> sig == ConnecteeFound && !asCentral)
            && (next == MsgColorSelected <==> sig == MsgMode || sig == MsgColorSelected)
            && (next == MsgMode <==> sig == JewelbotOn && 1500 <= ticks < 65000)
            && (next == BondWithMaster <==>
                  (sig == Charging && 1500 <= ticks < 65000) || (sig == BondWithMaster && ticks < 1500))
            && (next == DfuUpdate <==> sig == Charging && 65000 <= ticks && usb)
            && (next == Charging <==> sig == Charging && (ticks < 1500 || (65000 <= ticks && !usb)))
            && (next == JewelbotOn <==>
                  || (sig == JewelbotOn && ticks < 1500) || sig == DfuUpdate || (Cancelled(sig) && 1500 <= ticks))
            && (Cancelled(sig) && ticks < 1500 ==> next == sig)
  {
  }

  /** A press leaves friend finding for the on state and non-connectable advertising; a tap
      does nothing. */
  lemma PressWhileWaiting(d: Dev, ticks: int, usb: bool, usb': bool)
    requires d.fsm == Connectable && d.sig == WaitingForConnectee
    ensures ticks >= 1500 ==>
              After(d, [Button(ticks, usb), Dispatch(usb')]) == d.(fsm := On, sig := JewelbotOn, adv := NonConn)
    ensures ticks < 1500 ==> After(d, [Button(ticks, usb), Dispatch(usb')]) == d
  {
    AfterTwo(d, Button(ticks, usb), Dispatch(usb'));
    var p := Pressed(d, ticks, usb);
    assert p == if ticks >= 1500 then d.(sig := JewelbotOn, adv := NonConn) else d;
    assert Dispatched(p, usb') == ConnectableState(p);
  }

  /** Back from elsewhere a long press enters friend finding at once, whatever signal the
      other states left. */
  lemma BackAndFinding(d: Dev, ticks: int, usb: bool, usb': bool)
    requires d.fsm == Elsewhere && 65000 <= ticks < 160000
    ensures After(d, [BackFromElsewhere, Button(ticks, usb), Dispatch(usb')])
            == d.(fsm := Connectable, sig := WaitingForConnectee, adv := ConnectableAdv)
  {
    AfterThree(d, BackFromElsewhere, Button(ticks, usb), Dispatch(usb'));
    var e := d.(fsm := On, sig := JewelbotOn);
    assert React(d, BackFromElsewhere) == e;
    PressInOnState(e, ticks, usb, usb');
    AfterTwo(e, Button(ticks, usb), Dispatch(usb'));
  }

  /** The signals on which a state outside the on state does more than wait. */
  predicate ActsOn(fsm: Fsm, sig: Signal) {
    match fsm
    case Connectable => sig in {ConnecteeFound, Declining, MoveOutOfRange, JewelbotOn}
    case AddFriend => sig in {Accepting, Adding, Declining, MoveOutOfRange, ConnecteeFound}
    case AcceptFriend => sig in {Declining, MoveOutOfRange}
    case DeclineFriend => sig != JewelbotOn
    case _ => false
  }

  /** On every other signal a dispatch changes nothing, unless a role is complete or the peer
      is missing; a peer found while a colour is chosen goes on with the choice. */
  lemma OtherwiseWaits(d: Dev, usb: bool)
    requires d.fsm != On && (d.fsm == AcceptFriend ==> !d.centComplete && !d.periphComplete)
    requires d.fsm == AddFriend ==> d.pending != 0
    ensures !ActsOn(d.fsm, d.sig) ==> React(d, Dispatch(usb)) == d
    ensures d.fsm == AddFriend && d.sig == ConnecteeFound ==> React(d, Dispatch(usb)) == d.(sig := Adding)
  {
    match d.fsm
    case Connectable => ConnectableWaits(d);
    case AddFriend => ChoiceWaits(d);
    case AcceptFriend => AcceptWaits(d);
    case DeclineFriend => DeclineWaits(d);
    case Elsewhere =>
  }

  lemma ConnectableWaits(d: Dev)
    ensures !ActsOn(Connectable, d.sig) ==> ConnectableState(d) == d
  {
  }

  lemma ChoiceWaits(d: Dev)
    requires d.pending != 0
    ensures !ActsOn(AddFriend, d.sig) ==> AddFriendState(d) == d
    ensures d.sig == ConnecteeFound ==> AddFriendState(d) == d.(sig := Adding)
  {
  }

  lemma AcceptWaits(d: Dev)
    requires !d.centComplete && !d.periphComplete
    ensures !ActsOn(AcceptFriend, d.sig) ==> AcceptFriendState(d) == d
  {
  }

  lemma DeclineWaits(d: Dev)
    ensures !ActsOn(DeclineFriend, d.sig) ==> DeclineFriendState(d) == d
  {
  }

  // ---------- presses that strand a pairing ----------

  /** Inputs that neither the button nor the radio makes. */
  predicate OnItsOwn(i: Input) {
    i.Dispatch? || i.DeclineTimeout? || i.LedTimeout?
  }

  /** Choosing a colour for a peer, waiting for it, or declining. */
  predicate MidPairing(d: Dev) {
    || (d.fsm == AddFriend && d.pending != 0)
    || (d.fsm == AcceptFriend && !d.centComplete && !d.periphComplete)
    || d.fsm == DeclineFriend
  }

  predicate Stranded(d: Dev) {
    MidPairing(d) && d.sig == JewelbotOn
  }

  /** With the on signal neither the dispatcher nor a timer leaves these states, so the role
      and the advertising stay. */
  lemma {:induction false} StrandedStays(d: Dev, inputs: seq<Input>)
    requires Stranded(d) && forall i :: i in inputs ==> OnItsOwn(i)
    ensures var e := After(d, inputs);
            Stranded(e) && e == d.(currentCycle := e.currentCycle)
    decreases |inputs|
  {
    if inputs != [] {
      assert OnItsOwn(inputs[0]);
      StrandedStep(d, inputs[0]);
      StrandedStays(React(d, inputs[0]), inputs[1..]);
    }
  }

  lemma StrandedStep(d: Dev, i: Input)
    requires Stranded(d) && OnItsOwn(i)
    ensures React(d, i) == d.(currentCycle := React(d, i).currentCycle)
  {
    match i
    case Dispatch(usb) => OtherwiseWaits(d, usb);
    case DeclineTimeout => assert DeclineTimedOut(d) == d;
    case LedTimeout(all) =>
  }

  /** A release after a colour was accepted, or after giving up, strands the pairing iff it is
      a press. */
  lemma PressStrandsIff(d: Dev, ticks: int, usb: bool)
    requires MidPairing(d) && d.sig in {Accepting, Declining, MoveOutOfRange}
    ensures Stranded(React(d, Button(ticks, usb))) <==> ticks >= 1500
    ensures ticks < 1500 ==> React(d, Button(ticks, usb)) == d
  {
  }

  // ---------- connections, scan responses, saves ----------

  /** A link gives a role, with the sentinel on offer, iff the bracelet waited for it and it
      had been established. Otherwise no pairing data changes. */
  lemma LinkGivesRoleIff(d: Dev, failed: bool)
    ensures var c := React(d, CentralDisconnected(failed));
            && (!d.connCent ==> (c.connCent <==> d.sig == WaitingForConnectee && !failed))
            && (d.sig == WaitingForConnectee && !failed ==>
                  c == d.(sig := ConnecteeFound, connCent := true, ffIndex := FF_SENTINEL, adv := Ff(FF_SENTINEL)))
            && (d.sig == WaitingForConnectee && failed ==> c == d)
            && (d.sig != WaitingForConnectee ==> c == d.(adv := NonConn))
    ensures var p := React(d, PeriphDisconnected);
            && (!d.connPeriph ==> (p.connPeriph <==> d.sig == WaitingForConnectee))
            && (d.sig == WaitingForConnectee ==>
                  p == d.(sig := ConnecteeFound, connPeriph := true, ffIndex := FF_SENTINEL, adv := Ff(FF_SENTINEL)))
            && (d.sig != WaitingForConnectee ==> p == d.(adv := NonConn))
  {
  }

  /** After a link that was never established the bracelet still waits and can be found. */
  lemma FailedLinkStillWaits(d: Dev)
    requires d.fsm == Connectable && d.sig == WaitingForConnectee
    ensures After(d, [CentralDisconnected(true), CentralDisconnected(false)]) == React(d, CentralDisconnected(false))
  {
    AfterTwo(d, CentralDisconnected(true), CentralDisconnected(false));
  }

  /** The peer is remembered iff a pairing is on; otherwise advertising is resumed. */
  lemma PeerRememberedIff(d: Dev, peer: int)
    ensures d.sig in {ConnecteeFound, WaitingForConnectee, ButtonPressLong, Adding, Accepting} ==>
              React(d, Connected(peer)) == d.(pending := peer)
    ensures d.sig !in {ConnecteeFound, WaitingForConnectee, ButtonPressLong, Adding, Accepting} ==>
              React(d, Connected(peer)) == d.(adv := NonConn)
  {
  }

  /** What a scan response changes. */
  lemma HeardChangesIff(d: Dev, from: int, rsp: ScanRsp)
    ensures var e := React(d, Heard(from, rsp));
            var offered := from == d.pending && rsp.Offer? && rsp.index != FF_SENTINEL;
            && (e.centComplete <==> d.centComplete || (offered && d.connCent))
            && (e.connCent <==> d.connCent && !offered)
            && (e.selected <==> d.selected || (offered && d.connPeriph && !d.connCent))
            && e.color == (if offered && d.connPeriph && !d.connCent then rsp.index else d.color)
            && (e.periphComplete <==>
                  d.periphComplete || (from == d.pending && rsp.Done? && d.connPeriph && d.ffIndex != FF_SENTINEL))
            && (e.connPeriph <==> d.connPeriph && !(from == d.pending && rsp.Done? && d.ffIndex != FF_SENTINEL))
            && e == d.(centComplete := e.centComplete, connCent := e.connCent, selected := e.selected, color := e.color,
                       periphComplete := e.periphComplete, connPeriph := e.connPeriph)
  {
  }

  /** A peripheral waits for an offer, takes its colour, and echoes it. */
  lemma PeripheralAnswers(d: Dev, c: int, usb: bool)
    requires d.fsm == Connectable && d.sig == ConnecteeFound && d.connPeriph && !d.connCent && !d.selected
    requires d.pending != 0 && c != FF_SENTINEL
    ensures React(d, Dispatch(usb)) == d.(alreadyOn := true)
    ensures After(d, [Heard(d.pending, Offer(c)), Dispatch(usb), Dispatch(usb)]) ==
            d.(fsm := AcceptFriend, sig := Accepting, color := c, ffIndex := c, adv := Ff(c), cycle := false,
               alreadyOn := false)
  {
    AfterThree(d, Heard(d.pending, Offer(c)), Dispatch(usb), Dispatch(usb));
    var e := OnScanReport(d, d.pending, Offer(c));
    assert e == d.(color := c, selected := true);
    assert ConnectableState(e) == e.(alreadyOn := false, selected := false, sig := Accepting, fsm := AddFriend);
  }

  /** A completed role stores the peer under the colour and ends the pairing; without one the
      bracelet waits. */
  lemma CompletedRoleStores(d: Dev, usb: bool)
    requires d.fsm == AcceptFriend && !GivesUp(d.sig) && Roster(d.friends) && d.pending != 0
    ensures var e := React(d, Dispatch(usb));
            if d.centComplete || d.periphComplete then
              && e.fsm == On && e.sig == JewelbotOn && !e.centComplete && !e.periphComplete && !e.selected
              && e.ffIndex == FF_SENTINEL && e.pending == d.pending
              && AsMap(e.friends) ==
                 (if |d.friends| == MAX_NUM_OF_FRIENDS then AsMap(d.friends) else AsMap(d.friends)[d.pending := d.color])
              && (e.saving <==> d.saving || |d.friends| < MAX_NUM_OF_FRIENDS)
              && e.adv == (if |d.friends| < MAX_NUM_OF_FRIENDS then Silent else d.adv)
            else e == d
  {
    AddOrUpdateRefinesMap(d.friends, d.pending, d.color);
  }

  /** After a successful save the peer is forgotten, so that its scan responses do nothing
      more; after a failed one it is still heard. */
  lemma SavedPeerIsForgotten(d: Dev, from: int, rsp: ScanRsp)
    requires d.saving
    ensures React(d, FlashDone(true)) == d.(saving := false, pending := 0, adv := NonConn)
    ensures from != 0 ==> After(d, [FlashDone(true), Heard(from, rsp)]) == React(d, FlashDone(true))
    ensures React(d, FlashDone(false)) == d.(saving := false, adv := NonConn)
  {
    AfterTwo(d, FlashDone(true), Heard(from, rsp));
  }

  // ---------- the colour cycle ----------

  /** A colour is being chosen and `shown` is on display. */
  predicate Choosing(d: Dev, shown: int) {
    d.fsm == AddFriend && d.sig == Adding && d.cycle && d.color == shown && d.currentCycle == shown
  }

  /** However often the dispatcher runs, a colour up to the fourth stays on display until the
      timer of the cycle expires. */
  lemma ShownColourStays(d: Dev, shown: int, usb: bool)
    requires Choosing(d, shown) && 0 <= shown <= 3
    ensures React(d, Dispatch(usb)) == d
    ensures After(d, [LedTimeout(false), Dispatch(usb)]) == d
  {
    AfterTwo(d, LedTimeout(false), Dispatch(usb));
    DisplayFollows(d, usb);
  }

  /** Then the next one is shown. */
  lemma CycleMovesOn(d: Dev, shown: int, usb: bool)
    requires Choosing(d, shown) && 0 <= shown <= 3
    ensures After(d, [LedTimeout(true), Dispatch(usb)]) ==
            d.(color := shown + 1, currentCycle := if shown < 3 then shown + 1 else 0)
  {
    AfterTwo(d, LedTimeout(true), Dispatch(usb));
    DisplayFollows(d.(currentCycle := shown + 1), usb);
  }

  /** The fifth is shown by one dispatch only; the next one goes back to the first. */
  lemma FifthIsBrief(d: Dev, usb: bool)
    requires Choosing(d, 3)
    ensures Choosing(After(d, [LedTimeout(true), Dispatch(usb), Dispatch(usb)]), 0)
  {
    AfterThree(d, LedTimeout(true), Dispatch(usb), Dispatch(usb));
    DisplayFollows(d.(currentCycle := 4), usb);
    DisplayFollows(d.(currentCycle := 0, color := 4), usb);
  }

  lemma DisplayFollows(d: Dev, usb: bool)
    requires d.fsm == AddFriend && d.sig == Adding && d.cycle
    ensures Dispatched(d, usb)
            == d.(color := d.currentCycle, currentCycle := if d.currentCycle > 3 then 0 else d.currentCycle)
  {
    assert Dispatched(d, usb) == Cycling(d);
  }
}
