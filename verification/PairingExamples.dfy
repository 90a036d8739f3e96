/** Concrete runs: pairing succeeds with every colour, and two in which a peripheral stores
    a friend alone. */
module PairingExamples {
  import opened Options
  import opened Friends
  import opened Device
  import opened Pairing
  import DeviceOutcomes
  import Messaging

  ghost predicate Reaches(w: World, v: World) {
    exists hs :: Run(w, hs) && End(w, hs) == v
  }

  lemma {:induction false} RunAppend(w: World, hs: seq<Happening>, h: Happening)
    requires Run(w, hs) && Enabled(End(w, hs), h)
    ensures Run(w, hs + [h]) && End(w, hs + [h]) == Step(End(w, hs), h)
    decreases |hs|
  {
    if hs == [] {
      assert hs + [h] == [h];
      assert [h][1..] == [];
      assert Run(Step(w, h), []);
    } else {
      RunAppend(Step(w, hs[0]), hs[1..], h);
      assert (hs + [h])[1..] == hs[1..] + [h];
    }
  }

  lemma Start(w: World)
    ensures Reaches(w, w)
  {
    assert Run(w, []) && End(w, []) == w;
  }

  lemma Then(w: World, v: World, h: Happening) returns (u: World)
    requires Reaches(w, v) && Enabled(v, h)
    ensures u == Step(v, h) && Reaches(w, u)
  {
    u := Step(v, h);
    var hs :| Run(w, hs) && End(w, hs) == v;
    RunAppend(w, hs, h);
  }

  /** A press of the button takes both into friend finding. */
  lemma BothSearch(w: World) returns (v: World)
    requires Init(w)
    ensures Reaches(w, v)
    ensures v == w.(c := w.c.(fsm := Connectable, sig := WaitingForConnectee, adv := ConnectableAdv), airC := {},
                    p := w.p.(fsm := Connectable, sig := WaitingForConnectee, adv := ConnectableAdv), airP := {})
  {
    Start(w);
    v := Then(w, w, ForC(Button(BUTTON_PRESS_LONG_TICKS, false)));
    v := Then(w, v, ForC(Dispatch(false)));
    v := Then(w, v, ForP(Button(BUTTON_PRESS_LONG_TICKS, false)));
    v := Then(w, v, ForP(Dispatch(false)));
  }

  function Met(d: Dev, peer: int): Dev {
    d.(fsm := Connectable, sig := ConnecteeFound, pending := peer, ffIndex := FF_SENTINEL, adv := Ff(FF_SENTINEL))
  }

  /** They connect, remember each other and drop the link. */
  lemma BothMeet(w: World) returns (v: World)
    requires Init(w)
    ensures Reaches(w, v)
    ensures v == w.(c := Met(w.c, w.addrP).(connCent := true), linkC := Gone, airC := {Offer(FF_SENTINEL)},
                    p := Met(w.p, w.addrC).(connPeriph := true), linkP := Gone, airP := {Offer(FF_SENTINEL)})
  {
    v := BothSearch(w);
    v := Then(w, v, ForC(Connected(w.addrP)));
    v := Then(w, v, ForP(Connected(w.addrC)));
    v := Then(w, v, ForC(CentralDisconnected(false)));
    v := Then(w, v, ForP(PeriphDisconnected));
  }

  function Waiting(d: Dev, colour: int): Dev {
    d.(fsm := AcceptFriend, sig := Accepting, color := colour, ffIndex := colour, adv := Ff(colour))
  }

  /** The central's colour cycle has started. */
  lemma CentralCycles(w: World) returns (v: World)
    requires Init(w) && !w.c.cycle
    ensures Reaches(w, v)
    ensures v == w.(c := Met(w.c, w.addrP).(fsm := AddFriend, sig := Adding, connCent := true, cycle := true,
                                            color := 0, currentCycle := 0),
                    linkC := Gone, airC := {Offer(FF_SENTINEL)},
                    p := Met(w.p, w.addrC).(connPeriph := true), linkP := Gone, airP := {Offer(FF_SENTINEL)})
  {
    v := BothMeet(w);
    v := Then(w, v, ForC(Dispatch(false)));
    v := Then(w, v, ForC(Dispatch(false)));
  }

  /** Each timeout of the cycle and the dispatch after it show the next colour. */
  lemma {:induction false} CycleTo(w: World, v: World, n: nat) returns (u: World)
    requires Reaches(w, v) && n <= 4 && DeviceOutcomes.Choosing(v.c, 0)
    requires !v.c.saving && v.airC + ScanRspOf(v.c.adv) == v.airC && Selected(v.offered, v.c.adv) == v.offered
    ensures Reaches(w, u) && u == v.(c := v.c.(color := n, currentCycle := AfterShown(n)))
  {
    if n == 0 {
      u := v;
    } else {
      u := CycleTo(w, v, n - 1);
      u := ShowNext(w, u);
      assert u.c == v.c.(color := n, currentCycle := AfterShown(n));
    }
  }

  lemma ShowNext(w: World, v: World) returns (u: World)
    requires Reaches(w, v) && 0 <= v.c.color <= 3 && DeviceOutcomes.Choosing(v.c, v.c.color)
    requires !v.c.saving && v.airC + ScanRspOf(v.c.adv) == v.airC && Selected(v.offered, v.c.adv) == v.offered
    ensures Reaches(w, u) && u == v.(c := v.c.(color := v.c.color + 1, currentCycle := AfterShown(v.c.color + 1)))
  {
    u := Then(w, v, ForC(LedTimeout(true)));
    assert u == v.(c := v.c.(currentCycle := v.c.color + 1));
    u := Then(w, u, ForC(Dispatch(false)));
    DeviceOutcomes.DisplayFollows(v.c.(currentCycle := v.c.color + 1), false);
  }

  /** The central shows the colours up to the chosen one, which may be the fifth, and selects it. */
  lemma CentralSelects(w: World, colour: nat) returns (v: World)
    requires Init(w) && !w.c.cycle && colour <= 4
    ensures Reaches(w, v)
    ensures v == w.(c := Waiting(Met(w.c, w.addrP), colour).(connCent := true, currentCycle := AfterShown(colour)),
                    linkC := Gone, airC := {Offer(FF_SENTINEL), Offer(colour)}, offered := Some(colour),
                    p := Met(w.p, w.addrC).(connPeriph := true), linkP := Gone, airP := {Offer(FF_SENTINEL)})
  {
    v := CentralCycles(w);
    v := CycleTo(w, v, colour);
    v := Then(w, v, ForC(Button(0, false)));
    v := Then(w, v, ForC(Dispatch(false)));
  }

  /** The peripheral hears the colour and echoes it. */
  lemma PeripheralEchoes(w: World, colour: nat) returns (v: World)
    requires Init(w) && !w.c.cycle && !w.p.cycle && colour <= 4
    ensures Reaches(w, v)
    ensures v == w.(c := Waiting(Met(w.c, w.addrP), colour).(connCent := true, currentCycle := AfterShown(colour)),
                    linkC := Gone, airC := {Offer(FF_SENTINEL), Offer(colour)}, offered := Some(colour),
                    p := Waiting(Met(w.p, w.addrC), colour).(connPeriph := true, alreadyOn := false), linkP := Gone,
                    airP := {Offer(FF_SENTINEL), Offer(colour)}, echoed := Some(colour))
  {
    v := CentralSelects(w, colour);
    v := Then(w, v, ForP(Heard(w.addrC, Offer(colour))));
    v := Then(w, v, ForP(Dispatch(false)));
    v := Then(w, v, ForP(Dispatch(false)));
  }

  /** A waiting peripheral that hears the done packet stores the central. */
  lemma PeripheralFinishes(w: World, v: World) returns (u: World)
    requires Reaches(w, v) && Done in v.airC && v.addrC == v.p.pending
    requires v.p.fsm == AcceptFriend && v.p.sig == Accepting && v.p.ffIndex != FF_SENTINEL
    requires !v.p.connCent && v.p.connPeriph && !v.p.saving && |v.p.friends| < MAX_NUM_OF_FRIENDS
    ensures Reaches(w, u)
    ensures u.storedC == v.storedC && u.left == v.left && u.storedP == Some(Friend(v.addrC, v.p.color))
  {
    u := Then(w, v, ForP(Heard(v.addrC, Done)));
    u := Then(w, u, ForP(Dispatch(false)));
  }

  /** A central that has heard the echo stores the peripheral and says so. */
  lemma CentralFinishes(w: World, v: World) returns (u: World)
    requires Reaches(w, v) && v.c.fsm == AcceptFriend && v.c.sig == Accepting && v.c.centComplete
    requires !v.c.saving && |v.c.friends| < MAX_NUM_OF_FRIENDS
    ensures Reaches(w, u)
    ensures u.storedC == Some(Friend(v.c.pending, v.c.color)) && Done in u.airC
    ensures u.p == v.p && u.addrC == v.addrC && u.storedP == v.storedP
  {
    u := Then(w, v, ForC(Dispatch(false)));
    u := Then(w, u, ForC(FlashDone(true)));
  }

  /** Pairing can succeed with every colour of the cycle, the fifth included: both store each
      other with it. */
  lemma PairingCanSucceed(w: World, colour: nat) returns (v: World)
    requires Init(w) && !w.c.cycle && !w.p.cycle && colour <= 4
    requires |w.c.friends| < MAX_NUM_OF_FRIENDS && |w.p.friends| < MAX_NUM_OF_FRIENDS
    ensures Reaches(w, v)
    ensures v.storedC == Some(Friend(w.addrP, colour)) && v.storedP == Some(Friend(w.addrC, colour))
  {
    v := PeripheralEchoes(w, colour);
    v := Then(w, v, ForC(Heard(w.addrP, Offer(colour))));
    v := CentralFinishes(w, v);
    v := PeripheralFinishes(w, v);
  }

  /** The central times out just before it hears the echo. Declining makes it broadcast the
      done packet, which the peripheral takes for success. */
  lemma PeripheralStoresAlone(w: World) returns (v: World)
    requires Init(w) && !w.c.cycle && !w.p.cycle
    requires |w.p.friends| < MAX_NUM_OF_FRIENDS
    ensures Reaches(w, v)
    ensures v.storedC == None && v.storedP == Some(Friend(w.addrC, 0)) && v.left == Declined
  {
    v := PeripheralEchoes(w, 0);
    v := CentralDeclines(w, v);
    v := PeripheralFinishes(w, v);
  }

  lemma CentralDeclines(w: World, v: World) returns (u: World)
    requires Reaches(w, v) && v.left == Staying && v.offered.Some? && v.c.fsm == AcceptFriend && v.c.sig == Accepting
    requires !v.c.saving && !v.c.centComplete && !v.c.periphComplete
    ensures Reaches(w, u)
    ensures Done in u.airC && u.left == Declined && u.storedC == v.storedC
    ensures u.p == v.p && u.addrC == v.addrC && u.storedP == v.storedP
  {
    u := Then(w, v, ForC(DeclineTimeout));
    u := Then(w, u, ForC(Dispatch(false)));
    u := Then(w, u, ForC(Dispatch(false)));
  }

  /** The central hears the echo but has no room, so it returns to the on state without a
      save. The next time its user enters and leaves friend finding, it broadcasts the done
      packet. */
  lemma PeripheralStoresAloneWhenFull(w: World) returns (v: World)
    requires Init(w) && !w.c.cycle && !w.p.cycle
    requires |w.c.friends| == MAX_NUM_OF_FRIENDS && |w.p.friends| < MAX_NUM_OF_FRIENDS
    ensures Reaches(w, v)
    ensures v.storedC == None && v.storedP == Some(Friend(w.addrC, 0)) && v.left == ListFull
  {
    v := PeripheralEchoes(w, 0);
    v := FullCentralReturns(w, v);
    v := PeripheralFinishes(w, v);
  }

  lemma FullCentralLeaves(w: World, v: World) returns (u: World)
    requires Reaches(w, v) && v.left == Staying && v.c.fsm == AcceptFriend && v.c.sig == Accepting
    requires v.c.connCent && v.c.pending == v.addrP && Offer(0) in v.airP
    requires !v.c.saving && |v.c.friends| == MAX_NUM_OF_FRIENDS
    ensures Reaches(w, u)
    ensures u.c.fsm == On && u.c.sig == JewelbotOn && !u.c.saving && u.left == ListFull && u.storedC == v.storedC
    ensures u.p == v.p && u.addrC == v.addrC && u.storedP == v.storedP
  {
    u := Then(w, v, ForC(Heard(v.addrP, Offer(0))));
    u := Then(w, u, ForC(Dispatch(false)));
  }

  lemma FullCentralReturns(w: World, v: World) returns (u: World)
    requires Reaches(w, v) && v.left == Staying && v.c.fsm == AcceptFriend && v.c.sig == Accepting
    requires v.c.connCent && v.c.pending == v.addrP && Offer(0) in v.airP
    requires !v.c.saving && |v.c.friends| == MAX_NUM_OF_FRIENDS
    ensures Reaches(w, u)
    ensures Done in u.airC && u.left == ListFull && u.storedC == v.storedC
    ensures u.p == v.p && u.addrC == v.addrC && u.storedP == v.storedP
  {
    u := FullCentralLeaves(w, v);
    u := Then(w, u, ForC(Button(BUTTON_PRESS_LONG_TICKS, false)));
    u := Then(w, u, ForC(Dispatch(false)));
    u := Then(w, u, ForC(Button(BUTTON_PRESS_TICKS, false)));
  }

  /** A colour that pairing stores has a message queue iff it is not the fifth of the cycle,
      which PairingCanSucceed shows to be possible. */
  lemma StoredColourHasQueueIff(w: World, hs: seq<Happening>)
    requires Init(w) && Run(w, hs) && End(w, hs).storedC.Some?
    ensures var colour := End(w, hs).storedC.value.color;
            0 <= colour < Messaging.COLORS_UNLOCKED <==> colour != 4
  {
    PairingAgrees(w, hs);
  }
}
