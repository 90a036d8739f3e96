/** Two bracelets pairing over one connection and a radio that may lose, repeat and reorder
    scan responses. `c` is the bracelet that becomes central on the connection. */
module Pairing {
  import opened Options
  import opened Friends
  import opened Device

  datatype Link = NotYet | Up | Gone

  /** How the central left the state in which it waits for the echo of its colour. */
  datatype Left = Staying | Saved | ListFull | Declined

  /** The air of a bracelet holds every scan response it has broadcast since it last entered
      friend finding. The last five fields are history: the colour the central selected, the
      colour the peripheral echoed, what each has stored, and how the central left. */
  datatype World = World(
    addrC: int, addrP: int,
    c: Dev, p: Dev,
    linkC: Link, linkP: Link,
    airC: set<ScanRsp>, airP: set<ScanRsp>,
    offered: Option<int>,
    echoed: Option<int>,
    storedC: Option<Friend>,
    storedP: Option<Friend>,
    left: Left)

  datatype Happening = ForC(i: Input) | ForP(i: Input)

  // ---------- steps ----------

  function ScanRspOf(a: Adv): set<ScanRsp> {
    match a
    case Ff(i) => {Offer(i)}
    case NonConn => {Done}
    case _ => {}
  }

  function Air(air: set<ScanRsp>, before: Dev, after: Dev): set<ScanRsp> {
    if before.fsm == On && after.fsm == Connectable then {} else air + ScanRspOf(after.adv)
  }

  function Selected(was: Option<int>, a: Adv): Option<int> {
    if a.Ff? && a.index != FF_SENTINEL then Some(a.index) else was
  }

  /** The accept state completes in this step. */
  predicate Completes(d: Dev, i: Input) {
    i.Dispatch? && d.fsm == AcceptFriend && React(d, i).fsm == On
  }

  predicate Stores(d: Dev, i: Input) {
    Completes(d, i) && |d.friends| < MAX_NUM_OF_FRIENDS
  }

  predicate Declines(d: Dev, i: Input) {
    i.Dispatch? && d.fsm == DeclineFriend && React(d, i).fsm == On
  }

  function LinkAfter(l: Link, i: Input): Link {
    match i
    case Connected(_) => Up
    case CentralDisconnected(_) => Gone
    case PeriphDisconnected => Gone
    case _ => l
  }

  /** One connection per session, no flash write in progress when advertising starts, and
      nothing heard that the peer has not broadcast. */
  predicate Enabled(w: World, h: Happening) {
    match h
    case ForC(i) => Possible(w.c, i, w.linkC, w.addrP, w.airP) && !i.PeriphDisconnected?
    case ForP(i) => Possible(w.p, i, w.linkP, w.addrC, w.airC) && !i.CentralDisconnected?
  }

  predicate Possible(d: Dev, i: Input, l: Link, peer: int, air: set<ScanRsp>) {
    && (i.Connected? ==> i.peer == peer && l == NotYet)
    && (i.CentralDisconnected? || i.PeriphDisconnected? ==> l == Up)
    && (i.Heard? ==> i.from == peer && i.rsp in air)
    && (d.saving && !i.FlashDone? ==> React(d, i).adv == d.adv)
  }

  function LeftAfter(w: World, i: Input): Left {
    if w.left != Staying then w.left
    else if Stores(w.c, i) then Saved
    else if Completes(w.c, i) then ListFull
    else if Declines(w.c, i) && w.offered.Some? then Declined
    else Staying
  }

  function StepC(w: World, i: Input): World {
    var c := React(w.c, i);
    w.(c := c, linkC := LinkAfter(w.linkC, i), airC := Air(w.airC, w.c, c), offered := Selected(w.offered, c.adv),
       storedC := if Stores(w.c, i) then Some(Friend(w.c.pending, w.c.color)) else w.storedC,
       left := LeftAfter(w, i))
  }

  function StepP(w: World, i: Input): World {
    var p := React(w.p, i);
    w.(p := p, linkP := LinkAfter(w.linkP, i), airP := Air(w.airP, w.p, p), echoed := Selected(w.echoed, p.adv),
       storedP := if Stores(w.p, i) then Some(Friend(w.p.pending, w.p.color)) else w.storedP)
  }

  function Step(w: World, h: Happening): World {
    match h
    case ForC(i) => StepC(w, i)
    case ForP(i) => StepP(w, i)
  }

  // ---------- the invariant ----------

  predicate ColourOk(x: int) {
    0 <= x <= 4
  }

  predicate Knows(fs: seq<Friend>, addr: int, color: int) {
    IndexOf(fs, addr) < |fs| && fs[IndexOf(fs, addr)].color == color
  }

  predicate CentralLocal(c: Dev) {
    && !c.connPeriph && !c.periphComplete && !c.selected && |c.friends| <= MAX_NUM_OF_FRIENDS
    && ColourOk(c.color) && ColourOk(c.currentCycle)
    && (c.sig.WaitingForConnectee? || c.sig.ConnecteeFound? ==> c.fsm == Connectable)
    && (c.centComplete ==> !c.connCent && !c.saving)
  }

  /** Before the selection no done packet is out, from the last entry of friend finding on. */
  predicate CentralBefore(c: Dev, link: Link, air: set<ScanRsp>, offered: Option<int>) {
    && (link != Gone ==> !c.connCent && !c.centComplete && offered.None?)
    && (c.sig.WaitingForConnectee? && link != Gone ==> Done !in air)
    && (c.sig.ConnecteeFound? || c.fsm == AddFriend ==> link == Gone && offered.None? && Done !in air)
    && (c.fsm == AcceptFriend || c.centComplete ==> offered.Some?)
    && (c.adv.Ff? ==> c.adv.index == FF_SENTINEL || offered == Some(c.adv.index))
    && (forall r :: r in air && r.Offer? ==> r.index == FF_SENTINEL || offered == Some(r.index))
    && ScanRspOf(c.adv) <= air
  }

  /** While it waits for the echo, the central sticks to its colour and sends no done packet;
      afterwards it has no role. */
  predicate CentralAfter(c: Dev, air: set<ScanRsp>, offered: Option<int>, left: Left) {
    && (left != Staying ==> offered.Some?)
    && (offered.Some? ==> ColourOk(offered.value))
    && (offered.Some? && left == Staying ==>
          && Done !in air
          && (c.fsm == AcceptFriend || c.fsm == DeclineFriend)
          && (c.fsm == AcceptFriend ==> offered == Some(c.color)))
    && (left != Staying ==> !c.connCent && !c.centComplete && c.fsm != AcceptFriend)
  }

  predicate CentralStored(w: World) {
    && (w.c.centComplete ==> w.c.pending == w.addrP && w.echoed.Some?)
    && (w.c.saving ==> w.storedC.Some?)
    && (w.left == Saved <==> w.storedC.Some?)
    && (w.left == ListFull ==> |w.c.friends| == MAX_NUM_OF_FRIENDS)
    && (w.storedC.Some? ==>
          && w.echoed.Some? && w.offered.Some?
          && w.storedC.value == Friend(w.addrP, w.offered.value)
          && Knows(w.c.friends, w.addrP, w.offered.value))
  }

  predicate InvC(w: World) {
    && CentralLocal(w.c)
    && CentralBefore(w.c, w.linkC, w.airC, w.offered)
    && CentralAfter(w.c, w.airC, w.offered, w.left)
    && CentralStored(w)
  }

  predicate PeriphLocal(p: Dev) {
    && !p.connCent && !p.centComplete && !p.sig.Adding? && |p.friends| <= MAX_NUM_OF_FRIENDS
    && (p.sig.WaitingForConnectee? || p.sig.ConnecteeFound? ==> p.fsm == Connectable)
    && (p.periphComplete ==> !p.connPeriph && !p.saving)
  }

  /** The peripheral only ever holds the colour the central selected. */
  predicate PeriphColour(p: Dev, air: set<ScanRsp>, offered: Option<int>, echoed: Option<int>) {
    && (p.selected || p.ffIndex != FF_SENTINEL || p.fsm == AddFriend || p.fsm == AcceptFriend ==> offered == Some(p.color))
    && (p.adv.Ff? ==> p.adv.index == FF_SENTINEL || echoed == Some(p.adv.index))
    && (forall r :: r in air && r.Offer? ==> r.index == FF_SENTINEL || echoed == Some(r.index))
    && (echoed.Some? ==> echoed == offered)
  }

  predicate PeriphStored(w: World) {
    && (w.linkP != Gone ==> !w.p.connPeriph && !w.p.periphComplete)
    && (w.p.periphComplete ==> w.p.pending == w.addrC && w.left != Staying)
    && (w.p.saving ==> w.storedP.Some?)
    && (w.storedP.Some? ==>
          && w.linkP == Gone && !w.p.connPeriph && !w.p.periphComplete
          && w.left != Staying && w.offered.Some?
          && w.storedP.value == Friend(w.addrC, w.offered.value)
          && Knows(w.p.friends, w.addrC, w.offered.value))
  }

  predicate InvP(w: World) {
    PeriphLocal(w.p) && PeriphColour(w.p, w.airP, w.offered, w.echoed) && PeriphStored(w)
  }

  predicate Inv(w: World) {
    w.addrC != 0 && w.addrP != 0 && InvC(w) && InvP(w)
  }

  // ---------- preservation ----------

  /** What the peripheral relies on. */
  predicate CentralTells(w: World) {
    && (w.offered.Some? ==> ColourOk(w.offered.value))
    && (forall r :: r in w.airC && r.Offer? ==> r.index == FF_SENTINEL || w.offered == Some(r.index))
    && (Done in w.airC && w.offered.Some? ==> w.left != Staying)
  }

  /** What the central relies on. */
  predicate PeriphTells(w: World) {
    && w.addrP != 0
    && (w.echoed.Some? ==> w.echoed == w.offered)
    && forall r :: r in w.airP && r.Offer? ==> r.index == FF_SENTINEL || w.echoed == Some(r.index)
  }

  lemma StoredKnown(fs: seq<Friend>, addr: int, color: int)
    requires |fs| < MAX_NUM_OF_FRIENDS
    ensures Knows(AddOrUpdate(fs, addr, color), addr, color)
  {
    var gs := AddOrUpdate(fs, addr, color);
    var k := IndexOf(fs, addr);
    assert gs[k] == Friend(addr, color);
    assert forall i :: 0 <= i < k ==> gs[i] == fs[i];
  }

  lemma CentralOnKept(w: World, usb: bool)
    requires InvC(w) && PeriphTells(w) && Enabled(w, ForC(Dispatch(usb))) && w.c.fsm == On
    ensures InvC(StepC(w, Dispatch(usb)))
  {
    if w.c.sig.ButtonPressLong? {
      assert StepC(w, Dispatch(usb)) == w.(c := OnState(w.c, usb), airC := {});
    } else {
      var c := React(w.c, Dispatch(usb));
      assert c == w.c.(fsm := c.fsm, sig := c.sig);
    }
  }

  lemma CentralConnectableKept(w: World, usb: bool)
    requires InvC(w) && PeriphTells(w) && Enabled(w, ForC(Dispatch(usb))) && w.c.fsm == Connectable
    ensures InvC(StepC(w, Dispatch(usb)))
  {
    var c := React(w.c, Dispatch(usb));
    assert c == w.c.(fsm := c.fsm, sig := c.sig);
    assert StepC(w, Dispatch(usb)) == w.(c := c, airC := Air(w.airC, w.c, c), offered := Selected(w.offered, c.adv));
  }

  lemma CentralAddFriendKept(w: World, usb: bool)
    requires InvC(w) && PeriphTells(w) && Enabled(w, ForC(Dispatch(usb))) && w.c.fsm == AddFriend
    ensures InvC(StepC(w, Dispatch(usb)))
  {
    var c := React(w.c, Dispatch(usb));
    if w.c.sig.Accepting? {
      assert StepC(w, Dispatch(usb)) == w.(c := c, airC := w.airC + {Offer(w.c.color)}, offered := Some(w.c.color));
    } else {
      assert c == w.c.(fsm := c.fsm, sig := c.sig, cycle := c.cycle, currentCycle := c.currentCycle, color := c.color);
      assert ColourOk(c.color) && ColourOk(c.currentCycle);
      assert StepC(w, Dispatch(usb)) == w.(c := c, airC := Air(w.airC, w.c, c), offered := Selected(w.offered, c.adv));
    }
  }

  lemma CentralAcceptKept(w: World, usb: bool)
    requires InvC(w) && PeriphTells(w) && Enabled(w, ForC(Dispatch(usb))) && w.c.fsm == AcceptFriend
    ensures InvC(StepC(w, Dispatch(usb)))
  {
    if |w.c.friends| < MAX_NUM_OF_FRIENDS {
      StoredKnown(w.c.friends, w.c.pending, w.c.color);
    }
  }

  lemma CentralDeclineKept(w: World, usb: bool)
    requires InvC(w) && PeriphTells(w) && Enabled(w, ForC(Dispatch(usb))) && w.c.fsm == DeclineFriend
    ensures InvC(StepC(w, Dispatch(usb)))
  {
  }

  lemma CentralLinkKept(w: World, i: Input)
    requires InvC(w) && PeriphTells(w) && Enabled(w, ForC(i)) && (i.Connected? || i.CentralDisconnected?)
    ensures InvC(StepC(w, i))
  {
  }

  lemma CentralHeardKept(w: World, i: Input)
    requires InvC(w) && PeriphTells(w) && Enabled(w, ForC(i)) && i.Heard?
    ensures InvC(StepC(w, i))
  {
  }

  lemma CentralPressKept(w: World, i: Input)
    requires InvC(w) && PeriphTells(w) && Enabled(w, ForC(i)) && i.Button?
    ensures InvC(StepC(w, i))
  {
  }

  lemma CentralRestKept(w: World, i: Input)
    requires InvC(w) && PeriphTells(w) && Enabled(w, ForC(i))
    requires i.DeclineTimeout? || i.LedTimeout? || i.BackFromElsewhere? || i.FlashDone?
    ensures InvC(StepC(w, i))
  {
  }

  predicate Moves(d: Dev, e: Dev) {
    e == d.(fsm := e.fsm, sig := e.sig, cycle := e.cycle, selected := e.selected, alreadyOn := e.alreadyOn)
  }

  /** A step that only moves the state machine keeps the peripheral's part. */
  lemma PeriphMoves(w: World, p: Dev, air: set<ScanRsp>)
    requires InvP(w) && PeriphLocal(p)
    requires Moves(w.p, p)
    requires p.selected || p.fsm == AddFriend || p.fsm == AcceptFriend ==> w.offered == Some(p.color)
    requires air <= w.airP + ScanRspOf(p.adv)
    ensures InvP(w.(p := p, airP := air, echoed := Selected(w.echoed, p.adv)))
  {
  }

  lemma PeriphOnKept(w: World, usb: bool)
    requires InvP(w) && CentralTells(w) && Enabled(w, ForP(Dispatch(usb))) && w.p.fsm == On
    ensures InvP(StepP(w, Dispatch(usb)))
  {
    var p := OnState(w.p, usb);
    if w.p.sig.ButtonPressLong? {
      assert p == w.p.(sig := WaitingForConnectee, adv := ConnectableAdv, fsm := Connectable);
      assert StepP(w, Dispatch(usb)) == w.(p := p, airP := {});
    } else {
      assert p == w.p.(fsm := p.fsm, sig := p.sig);
      PeriphMoves(w, p, Air(w.airP, w.p, p));
      assert StepP(w, Dispatch(usb)) == w.(p := p, airP := Air(w.airP, w.p, p), echoed := Selected(w.echoed, p.adv));
    }
  }

  lemma PeriphConnectableKept(w: World, usb: bool)
    requires InvP(w) && CentralTells(w) && Enabled(w, ForP(Dispatch(usb))) && w.p.fsm == Connectable
    ensures InvP(StepP(w, Dispatch(usb)))
  {
    var p := ConnectableState(w.p);
    PeriphMoves(w, p, Air(w.airP, w.p, p));
    assert StepP(w, Dispatch(usb)) == w.(p := p, airP := Air(w.airP, w.p, p), echoed := Selected(w.echoed, p.adv));
  }

  lemma PeriphAddFriendKept(w: World, usb: bool)
    requires InvP(w) && CentralTells(w) && Enabled(w, ForP(Dispatch(usb))) && w.p.fsm == AddFriend
    ensures InvP(StepP(w, Dispatch(usb)))
  {
    var p := AddFriendState(w.p);
    if w.p.sig.Accepting? {
      assert StepP(w, Dispatch(usb)) == w.(p := p, airP := w.airP + {Offer(w.p.color)}, echoed := Some(w.p.color));
    } else {
      PeriphMoves(w, p, Air(w.airP, w.p, p));
      assert StepP(w, Dispatch(usb)) == w.(p := p, airP := Air(w.airP, w.p, p), echoed := Selected(w.echoed, p.adv));
    }
  }

  lemma PeriphAcceptKept(w: World, usb: bool)
    requires InvP(w) && CentralTells(w) && Enabled(w, ForP(Dispatch(usb))) && w.p.fsm == AcceptFriend
    ensures InvP(StepP(w, Dispatch(usb)))
  {
    if |w.p.friends| < MAX_NUM_OF_FRIENDS {
      StoredKnown(w.p.friends, w.p.pending, w.p.color);
    }
  }

  lemma PeriphDeclineKept(w: World, usb: bool)
    requires InvP(w) && CentralTells(w) && Enabled(w, ForP(Dispatch(usb))) && w.p.fsm == DeclineFriend
    ensures InvP(StepP(w, Dispatch(usb)))
  {
  }

  lemma PeriphLinkKept(w: World, i: Input)
    requires InvP(w) && CentralTells(w) && Enabled(w, ForP(i)) && (i.Connected? || i.PeriphDisconnected?)
    ensures InvP(StepP(w, i))
  {
  }

  lemma PeriphHeardKept(w: World, i: Input)
    requires InvP(w) && CentralTells(w) && Enabled(w, ForP(i)) && i.Heard?
    ensures InvP(StepP(w, i))
  {
  }

  lemma PeriphPressKept(w: World, i: Input)
    requires InvP(w) && CentralTells(w) && Enabled(w, ForP(i)) && i.Button?
    ensures InvP(StepP(w, i))
  {
  }

  lemma PeriphRestKept(w: World, i: Input)
    requires InvP(w) && CentralTells(w) && Enabled(w, ForP(i))
    requires i.DeclineTimeout? || i.LedTimeout? || i.BackFromElsewhere? || i.FlashDone?
    ensures InvP(StepP(w, i))
  {
  }

  /** A step of one bracelet leaves the other's part of the invariant alone: the selected
      and echoed colours never change once set, and the central never comes back. */
  lemma FramesKept(w: World, i: Input)
    requires Inv(w)
    ensures Enabled(w, ForC(i)) && InvC(StepC(w, i)) ==> InvP(StepC(w, i))
    ensures Enabled(w, ForP(i)) && InvP(StepP(w, i)) ==> InvC(StepP(w, i))
  {
  }

  lemma StepCKept(w: World, i: Input)
    requires Inv(w) && Enabled(w, ForC(i))
    ensures Inv(StepC(w, i))
  {
    assert InvC(w) && PeriphTells(w);
    match i {
      case Dispatch(usb) =>
        match w.c.fsm {
          case On => CentralOnKept(w, usb);
          case Connectable => CentralConnectableKept(w, usb);
          case AddFriend => CentralAddFriendKept(w, usb);
          case AcceptFriend => CentralAcceptKept(w, usb);
          case DeclineFriend => CentralDeclineKept(w, usb);
          case Elsewhere =>
        }
      case Connected(_) => CentralLinkKept(w, i);
      case CentralDisconnected(_) => CentralLinkKept(w, i);
      case Heard(_, _) => CentralHeardKept(w, i);
      case Button(_, _) => CentralPressKept(w, i);
      case _ => CentralRestKept(w, i);
    }
    FramesKept(w, i);
  }

  lemma StepPKept(w: World, i: Input)
    requires Inv(w) && Enabled(w, ForP(i))
    ensures Inv(StepP(w, i))
  {
    assert InvP(w) && CentralTells(w);
    match i {
      case Dispatch(usb) =>
        match w.p.fsm {
          case On => PeriphOnKept(w, usb);
          case Connectable => PeriphConnectableKept(w, usb);
          case AddFriend => PeriphAddFriendKept(w, usb);
          case AcceptFriend => PeriphAcceptKept(w, usb);
          case DeclineFriend => PeriphDeclineKept(w, usb);
          case Elsewhere =>
        }
      case Connected(_) => PeriphLinkKept(w, i);
      case PeriphDisconnected => PeriphLinkKept(w, i);
      case Heard(_, _) => PeriphHeardKept(w, i);
      case Button(_, _) => PeriphPressKept(w, i);
      case _ => PeriphRestKept(w, i);
    }
    FramesKept(w, i);
  }

  // ---------- whole runs ----------

  predicate Fresh(d: Dev) {
    d.fsm == On && d.sig == JewelbotOn && Idle(d) && !d.saving && d.adv == NonConn
    && |d.friends| <= MAX_NUM_OF_FRIENDS && ColourOk(d.color) && ColourOk(d.currentCycle)
  }

  /** Two idle bracelets before they meet. */
  predicate Init(w: World) {
    && w.addrC != 0 && w.addrP != 0 && Fresh(w.c) && Fresh(w.p)
    && w.linkC == NotYet && w.linkP == NotYet && w.airC == {Done} && w.airP == {Done}
    && w.offered == None && w.echoed == None && w.storedC == None && w.storedP == None && w.left == Staying
  }

  predicate Run(w: World, hs: seq<Happening>)
    decreases |hs|
  {
    hs != [] ==> Enabled(w, hs[0]) && Run(Step(w, hs[0]), hs[1..])
  }

  function End(w: World, hs: seq<Happening>): World
    decreases |hs|
  {
    if hs == [] then w else End(Step(w, hs[0]), hs[1..])
  }

  lemma {:induction false} RunKeeps(w: World, hs: seq<Happening>)
    requires Inv(w) && Run(w, hs)
    ensures Inv(End(w, hs))
    ensures End(w, hs).addrC == w.addrC && End(w, hs).addrP == w.addrP
    decreases |hs|
  {
    if hs != [] {
      match hs[0] {
        case ForC(i) => StepCKept(w, i);
        case ForP(i) => StepPKept(w, i);
      }
      RunKeeps(Step(w, hs[0]), hs[1..]);
    }
  }

  /** Agreement. In every run, under any loss, repetition and reordering and any timing of
      buttons, timers and dispatches: whatever a bracelet stores is the other's address with
      the colour the central selected, one of the five of its cycle, the central stores only a
      colour that the peripheral has echoed, and so bracelets that both store agree. */
  lemma PairingAgrees(w: World, hs: seq<Happening>)
    requires Init(w) && Run(w, hs)
    ensures var v := End(w, hs);
            && (v.offered.Some? ==> ColourOk(v.offered.value))
            && (v.storedC.Some? ==>
                  && v.offered == v.echoed == Some(v.storedC.value.color)
                  && v.storedC.value.addr == w.addrP && Knows(v.c.friends, w.addrP, v.storedC.value.color))
            && (v.storedP.Some? ==>
                  && v.offered == Some(v.storedP.value.color)
                  && v.storedP.value.addr == w.addrC && Knows(v.p.friends, w.addrC, v.storedP.value.color))
            && (v.storedC.Some? && v.storedP.Some? ==>
                  v.storedC.value.color == v.storedP.value.color != FF_SENTINEL)
  {
    RunKeeps(w, hs);
  }

  /** Order. The peripheral stores only after the central has left its waiting state; so it
      stores alone exactly when the central has declined after selecting a colour, or had no
      room in its list. */
  lemma PeripheralStoresLast(w: World, hs: seq<Happening>)
    requires Init(w) && Run(w, hs) && End(w, hs).storedP.Some?
    ensures var v := End(w, hs);
            && v.left != Staying
            && (v.storedC.None? <==> v.left == Declined || v.left == ListFull)
            && (v.left == ListFull ==> |v.c.friends| == MAX_NUM_OF_FRIENDS)
  {
    RunKeeps(w, hs);
  }
}
