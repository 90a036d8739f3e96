/** One bracelet as far as friend pairing is concerned: the state machine of fsm.c with the
    flags of the BLE event handler and the advertising data, as functions on values. Module
    Bracelets has the stateful code. */
module Device {
  import opened Friends

  const FF_SENTINEL := 9
  const BUTTON_PRESS_TICKS := 1500
  const BUTTON_PRESS_LONG_TICKS := 65000
  const POWER_OFF_TICKS := 160000

  /** Elsewhere stands for the messaging, charging and bonding states, which touch no
      pairing data. */
  datatype Fsm = On | Connectable | AddFriend | AcceptFriend | DeclineFriend | Elsewhere

  /** The signals the modelled code tells apart. */
  datatype Signal =
    | ButtonPress | ButtonPressLong | PowerDown | Adding | Charging | Accepting | Declining | MoveOutOfRange
    | WaitingForConnectee | ConnecteeFound | JewelbotOn | DfuUpdate | MsgMode | MsgColorSelected | MsgReceived
    | BondWithMaster | OtherSignal

  /** What is being advertised, by its scan response: nothing useful, the offer or echo
      [0x10, index], or the done packet [0xAC, ..]. */
  datatype Adv = Silent | ConnectableAdv | NonConn | Ff(index: int)

  datatype ScanRsp = Offer(index: int) | Done

  datatype Dev = Dev(
    fsm: Fsm,
    sig: Signal,
    cycle: bool,
    currentCycle: int,
    color: int,
    pending: int,
    friends: seq<Friend>,
    connCent: bool,
    connPeriph: bool,
    centComplete: bool,
    periphComplete: bool,
    ffIndex: int,
    selected: bool,
    alreadyOn: bool,
    adv: Adv,
    saving: bool)

  /** What can happen to a bracelet. `Heard` is a scan response from address `from`. */
  datatype Input =
    | Dispatch(usb: bool)
    | Button(ticks: int, usb: bool)
    | DeclineTimeout
    | LedTimeout(all: bool)
    | BackFromElsewhere
    | FlashDone(ok: bool)
    | Connected(peer: int)
    | CentralDisconnected(failedToEstablish: bool)
    | PeriphDisconnected
    | Heard(from: int, rsp: ScanRsp)

  predicate FriendAddingMode(s: Signal) {
    s.ConnecteeFound? || s.WaitingForConnectee? || s.ButtonPressLong? || s.Adding? || s.Accepting?
  }

  /** Signals that end a pairing attempt. */
  predicate GivesUp(s: Signal) {
    s.Declining? || s.MoveOutOfRange?
  }

  /** Signals that lead from the on state to states outside pairing. */
  predicate LeadsElsewhere(s: Signal) {
    s.MsgReceived? || s.ButtonPress? || s.MsgMode? || s.BondWithMaster? || s.Charging? || s.PowerDown?
  }

  // ---------- the dispatcher ----------

  /** Idling on a charger sends the bracelet to the charging state next. */
  function OnState(d: Dev, usb: bool): (e: Dev)
    ensures e == d.(fsm := e.fsm, sig := e.sig, adv := e.adv)
  {
    if LeadsElsewhere(d.sig) then d.(fsm := Elsewhere)
    else if d.sig.ButtonPressLong? then d.(sig := WaitingForConnectee, adv := ConnectableAdv, fsm := Connectable)
    else if d.sig.JewelbotOn? && usb then d.(sig := Charging)
    else d
  }

  function ConnectableState(d: Dev): (e: Dev)
    ensures e == d.(fsm := e.fsm, sig := e.sig, selected := e.selected, alreadyOn := e.alreadyOn)
    ensures e.selected ==> d.selected
  {
    if d.sig.ConnecteeFound? then
      if d.connCent then d.(sig := Adding, fsm := AddFriend)
      else if d.connPeriph && !d.selected && !d.alreadyOn then d.(alreadyOn := true)
      else if d.connPeriph && d.selected then d.(alreadyOn := false, selected := false, sig := Accepting, fsm := AddFriend)
      else d
    else if GivesUp(d.sig) then d.(fsm := DeclineFriend)
    else if d.sig.JewelbotOn? then d.(fsm := On)
    else d
  }

  /** An invalid peer falls through: the offer goes out before the decline. */
  function Offering(d: Dev): Dev {
    d.(sig := CheckPeer(d.pending, d.sig), cycle := false, ffIndex := d.color, adv := Ff(d.color), fsm := AcceptFriend)
  }

  function Cycling(d: Dev): Dev {
    var index := if d.cycle then d.currentCycle else 0;
    d.(cycle := true, currentCycle := AfterShown(index), color := index)
  }

  function AddFriendState(d: Dev): (e: Dev)
    ensures !d.sig.Adding? ==> e.color == d.color
    ensures !d.sig.Accepting? ==> e.ffIndex == d.ffIndex && e.adv == d.adv
  {
    if d.sig.Accepting? then Offering(d)
    else if GivesUp(d.sig) then d.(cycle := false, fsm := DeclineFriend)
    else if d.sig.Adding? then Cycling(d)
    else d.(sig := CheckPeer(d.pending, if d.sig.ConnecteeFound? then Adding else d.sig))
  }

  function CheckPeer(pending: int, sig: Signal): Signal {
    if pending == 0 then MoveOutOfRange else sig
  }

  /** An index past the last LED restarts the cycle, but only after it has been taken as the
      colour. */
  function AfterShown(index: int): int {
    if index > 3 then 0 else index
  }

  function AcceptFriendState(d: Dev): Dev {
    if GivesUp(d.sig) then d.(cycle := false, fsm := DeclineFriend)
    else if d.centComplete || d.periphComplete then Commit(d)
    else d
  }

  /** Store the pending friend; a save stops advertising until the flash write is done, and
      a full list saves nothing. */
  function SaveFriend(d: Dev): Dev {
    if |d.friends| == MAX_NUM_OF_FRIENDS then d
    else d.(friends := AddOrUpdate(d.friends, d.pending, d.color), adv := Silent, saving := true)
  }

  function Commit(d: Dev): Dev {
    SaveFriend(Released(d)).(sig := JewelbotOn, fsm := On)
  }

  /** Give up the completed role and the selection. */
  function Released(d: Dev): Dev {
    d.(selected := false, centComplete := false, periphComplete := false, ffIndex := FF_SENTINEL)
  }

  function DeclineFriendState(d: Dev): Dev {
    if GivesUp(d.sig) then
      d.(selected := false, centComplete := false, periphComplete := false, connCent := false, connPeriph := false,
         ffIndex := FF_SENTINEL, sig := JewelbotOn, adv := NonConn, fsm := On)
    else d.(sig := JewelbotOn)
  }

  function Dispatched(d: Dev, usb: bool): Dev {
    match d.fsm
    case On => OnState(d, usb)
    case Connectable => ConnectableState(d)
    case AddFriend => AddFriendState(d)
    case AcceptFriend => AcceptFriendState(d)
    case DeclineFriend => DeclineFriendState(d)
    case Elsewhere => d
  }

  // ---------- button, timers, flash ----------

  function OnPressSignal(ticks: int): Signal {
    if ticks >= POWER_OFF_TICKS then PowerDown
    else if ticks >= BUTTON_PRESS_LONG_TICKS then ButtonPressLong
    else if ticks >= BUTTON_PRESS_TICKS then MsgMode
    else JewelbotOn
  }

  /** The signal after a button release of `ticks`. */
  function PressSignal(sig: Signal, asCentral: bool, ticks: int, usb: bool): Signal {
    if sig.MsgColorSelected? then sig
    else if sig.MsgMode? then MsgColorSelected
    else if sig.Adding? then Accepting
    else if sig.ConnecteeFound? then if asCentral then Adding else sig
    else if sig.JewelbotOn? then OnPressSignal(ticks)
    else if sig.DfuUpdate? then JewelbotOn
    else if sig.Charging? then
      if BUTTON_PRESS_TICKS <= ticks < BUTTON_PRESS_LONG_TICKS then BondWithMaster
      else if ticks >= BUTTON_PRESS_LONG_TICKS && usb then DfuUpdate
      else sig
    else if ticks >= BUTTON_PRESS_TICKS then JewelbotOn
    else sig
  }

  /** Leaving friend finding by the button also goes back to non-connectable advertising. */
  function Pressed(d: Dev, ticks: int, usb: bool): Dev {
    d.(sig := PressSignal(d.sig, d.connCent, ticks, usb),
       adv := if d.sig == WaitingForConnectee && ticks >= BUTTON_PRESS_TICKS then NonConn else d.adv)
  }

  function DeclineTimedOut(d: Dev): Dev {
    if FriendAddingMode(d.sig) then d.(sig := Declining) else d
  }

  /** The timer serves other colour displays too; only over all colours the cycle advances. */
  function LedTimedOut(d: Dev, all: bool): Dev {
    if all then d.(currentCycle := if d.currentCycle >= 4 then 0 else d.currentCycle + 1) else d
  }

  function FlashFinished(d: Dev, ok: bool): Dev {
    d.(saving := false, pending := if ok then 0 else d.pending, adv := NonConn)
  }

  // ---------- BLE events ----------

  function OnConnected(d: Dev, peer: int): Dev {
    if FriendAddingMode(d.sig) then d.(pending := peer) else d.(adv := NonConn)
  }

  function OnCentralDisconnected(d: Dev, failedToEstablish: bool): Dev {
    if d.sig == WaitingForConnectee then
      if failedToEstablish then d
      else d.(sig := ConnecteeFound, connCent := true, ffIndex := FF_SENTINEL, adv := Ff(FF_SENTINEL))
    else d.(adv := NonConn)
  }

  function OnPeriphDisconnected(d: Dev): Dev {
    if d.sig == WaitingForConnectee then
      d.(sig := ConnecteeFound, connPeriph := true, ffIndex := FF_SENTINEL, adv := Ff(FF_SENTINEL))
    else d.(adv := NonConn)
  }

  function OnScanReport(d: Dev, from: int, rsp: ScanRsp): Dev {
    if from != d.pending then d
    else if rsp.Offer? && rsp.index != FF_SENTINEL && d.connCent then d.(centComplete := true, connCent := false)
    else if rsp.Offer? && rsp.index != FF_SENTINEL && d.connPeriph then d.(color := rsp.index, selected := true)
    else if rsp.Done? && d.connPeriph && d.ffIndex != FF_SENTINEL then d.(periphComplete := true, connPeriph := false)
    else d
  }

  function React(d: Dev, i: Input): Dev {
    match i
    case Dispatch(usb) => Dispatched(d, usb)
    case Button(ticks, usb) => Pressed(d, ticks, usb)
    case DeclineTimeout => DeclineTimedOut(d)
    case LedTimeout(all) => LedTimedOut(d, all)
    case BackFromElsewhere => if d.fsm == Elsewhere then d.(fsm := On, sig := JewelbotOn) else d
    case FlashDone(ok) => if d.saving then FlashFinished(d, ok) else d
    case Connected(peer) => OnConnected(d, peer)
    case CentralDisconnected(f) => OnCentralDisconnected(d, f)
    case PeriphDisconnected => OnPeriphDisconnected(d)
    case Heard(from, rsp) => OnScanReport(d, from, rsp)
  }

  // ---------- one bracelet in any environment ----------

  /** No pairing in progress. */
  predicate Idle(d: Dev) {
    && !d.connCent && !d.connPeriph && !d.centComplete && !d.periphComplete
    && !d.selected && d.ffIndex == FF_SENTINEL
  }

  function Roles(d: Dev): nat {
    (if d.connCent then 1 else 0) + (if d.connPeriph then 1 else 0)
    + (if d.centComplete then 1 else 0) + (if d.periphComplete then 1 else 0)
  }

  /** At most one role. No trace of a pairing is left outside pairing and while waiting for a
      peer; in friend finding it is there only between the disconnect and the next state. */
  predicate Sound(d: Dev) {
    && Roles(d) <= 1
    && (d.fsm.On? || d.fsm.Elsewhere? || d.sig.WaitingForConnectee? ==> Idle(d))
    && (d.sig.WaitingForConnectee? || d.sig.ConnecteeFound? ==> d.fsm.Connectable?)
    && (d.fsm.Connectable? ==> Idle(d) || (Roles(d) == 1 && (d.sig.ConnecteeFound? || d.sig.Declining?)))
  }

  /** Button releases that come before the dispatcher has left friend finding: any by a
      central that has just lost its link, and a press by a bracelet with a role that has just
      timed out. */
  predicate TooEarly(d: Dev, i: Input) {
    && i.Button? && d.fsm.Connectable?
    && ((d.sig.ConnecteeFound? && d.connCent)
        || (d.sig.Declining? && Roles(d) == 1 && i.ticks >= BUTTON_PRESS_TICKS))
  }

  function After(d: Dev, inputs: seq<Input>): Dev
    decreases |inputs|
  {
    if inputs == [] then d else After(React(d, inputs[0]), inputs[1..])
  }

  predicate NoneTooEarly(d: Dev, inputs: seq<Input>)
    decreases |inputs|
  {
    inputs != [] ==> !TooEarly(d, inputs[0]) && NoneTooEarly(React(d, inputs[0]), inputs[1..])
  }

  lemma OnKeepsSound(d: Dev, usb: bool)
    requires Sound(d) && d.fsm == On
    ensures Sound(OnState(d, usb))
  {
  }

  lemma ConnectableKeepsSound(d: Dev)
    requires Sound(d) && d.fsm == Connectable
    ensures Sound(ConnectableState(d))
  {
  }

  lemma AddFriendKeepsSound(d: Dev)
    requires Sound(d) && d.fsm == AddFriend
    ensures Sound(AddFriendState(d))
  {
  }

  lemma AcceptFriendKeepsSound(d: Dev)
    requires Sound(d) && d.fsm == AcceptFriend
    ensures Sound(AcceptFriendState(d))
  {
  }

  lemma DeclineFriendKeepsSound(d: Dev)
    requires Sound(d) && d.fsm == DeclineFriend
    ensures Sound(DeclineFriendState(d))
  {
  }

  lemma DispatchKeepsSound(d: Dev, usb: bool)
    requires Sound(d)
    ensures Sound(Dispatched(d, usb))
  {
    match d.fsm
    case On => OnKeepsSound(d, usb);
    case Connectable => ConnectableKeepsSound(d);
    case AddFriend => AddFriendKeepsSound(d);
    case AcceptFriend => AcceptFriendKeepsSound(d);
    case DeclineFriend => DeclineFriendKeepsSound(d);
    case Elsewhere =>
  }

  lemma PressKeepsSoundIff(d: Dev, ticks: int, usb: bool)
    requires Sound(d)
    ensures Sound(Pressed(d, ticks, usb)) <==> !TooEarly(d, Button(ticks, usb))
  {
  }

  lemma ConnectedKeepsSound(d: Dev, peer: int)
    requires Sound(d)
    ensures Sound(OnConnected(d, peer))
  {
    assert Sound(d.(pending := peer));
    assert Sound(d.(adv := NonConn));
  }

  lemma DisconnectedKeepsSound(d: Dev, failed: bool)
    requires Sound(d)
    ensures Sound(OnCentralDisconnected(d, failed))
    ensures Sound(OnPeriphDisconnected(d))
  {
  }

  lemma HeardKeepsSound(d: Dev, from: int, rsp: ScanRsp)
    requires Sound(d)
    ensures Sound(OnScanReport(d, from, rsp))
  {
  }

  lemma FlashKeepsSound(d: Dev, ok: bool)
    requires Sound(d)
    ensures Sound(FlashFinished(d, ok))
  {
  }

  lemma OtherKeepsSound(d: Dev, i: Input)
    requires Sound(d)
    requires i.DeclineTimeout? || i.LedTimeout? || i.BackFromElsewhere? || i.FlashDone?
    ensures Sound(React(d, i))
  {
  }

  /** A single input keeps the invariant iff it is not a button release that comes too early. */
  lemma SoundKeptIff(d: Dev, i: Input)
    requires Sound(d)
    ensures Sound(React(d, i)) <==> !TooEarly(d, i)
  {
    match i
    case Dispatch(usb) => DispatchKeepsSound(d, usb);
    case Button(ticks, usb) => PressKeepsSoundIff(d, ticks, usb);
    case Connected(peer) => ConnectedKeepsSound(d, peer);
    case CentralDisconnected(failed) => DisconnectedKeepsSound(d, failed);
    case PeriphDisconnected => DisconnectedKeepsSound(d, false);
    case Heard(from, rsp) => HeardKeepsSound(d, from, rsp);
    case _ => OtherKeepsSound(d, i);
  }

  /** What must hold of a bracelet at all times. */
  predicate Clean(d: Dev) {
    Roles(d) <= 1 && (d.fsm == On ==> Idle(d))
  }

  /** Whatever connects, disconnects, times out, is heard or dispatched in any order, and
      however pairing ends, a bracelet never plays both roles and is back to no role, no
      selection and the sentinel index whenever it is in the on state, unless a button release
      comes too early. */
  lemma {:induction false} CleanIdle(d: Dev, inputs: seq<Input>)
    requires Sound(d) && NoneTooEarly(d, inputs)
    ensures Sound(After(d, inputs)) && Clean(After(d, inputs))
    decreases |inputs|
  {
    if inputs != [] {
      SoundKeptIff(d, inputs[0]);
      CleanIdle(React(d, inputs[0]), inputs[1..]);
    }
  }

  /** Every run from here stays clean until a button release comes too early. */
  ghost predicate StaysClean(d: Dev) {
    forall inputs :: NoneTooEarly(d, inputs) ==> Clean(After(d, inputs))
  }

  /** The condition is exact: after a release that comes too early, some run in which no
      further one does reaches the on state with a role still set. */
  lemma StaysCleanIff(d: Dev, i: Input)
    requires Sound(d)
    ensures StaysClean(React(d, i)) <==> !TooEarly(d, i)
  {
    if TooEarly(d, i) {
      var inputs := Spoils(d, i);
      assert NoneTooEarly(React(d, i), inputs) && !Clean(After(React(d, i), inputs));
    } else {
      forall inputs | NoneTooEarly(React(d, i), inputs)
        ensures Clean(After(React(d, i), inputs))
      {
        SoundKeptIff(d, i);
        CleanIdle(React(d, i), inputs);
      }
    }
  }

  lemma Spoils(d: Dev, i: Input) returns (inputs: seq<Input>)
    requires Sound(d) && TooEarly(d, i)
    ensures NoneTooEarly(React(d, i), inputs)
    ensures After(React(d, i), inputs).fsm == On && !Idle(After(React(d, i), inputs))
  {
    var e := React(d, i);
    if d.sig.Declining? {
      LeavesFriendFinding(e);
      inputs := [Dispatch(false)];
    } else {
      var f := Pressed(e, 0, false);
      var g := Pressed(f, BUTTON_PRESS_TICKS, false);
      LeavesFriendFinding(g);
      assert After(f, [Button(BUTTON_PRESS_TICKS, false), Dispatch(false)]) == After(g, [Dispatch(false)]) by {
        assert [Button(BUTTON_PRESS_TICKS, false), Dispatch(false)][1..] == [Dispatch(false)];
      }
      inputs := [Button(0, false), Button(BUTTON_PRESS_TICKS, false), Dispatch(false)];
      assert inputs[1..] == [Button(BUTTON_PRESS_TICKS, false), Dispatch(false)];
    }
  }

  /** Friend finding goes to the on state without clearing anything. */
  lemma LeavesFriendFinding(d: Dev)
    requires d.fsm == Connectable && d.sig == JewelbotOn
    ensures NoneTooEarly(d, [Dispatch(false)]) && After(d, [Dispatch(false)]) == d.(fsm := On)
  {
    assert [Dispatch(false)][1..] == [];
  }

  // ---------- the settled dispatcher ----------

  /** The dispatcher has nothing left to do. */
  predicate Settled(d: Dev, usb: bool) {
    Dispatched(d, usb).fsm == d.fsm && Dispatched(d, usb).sig == d.sig
  }

  /** Once the dispatcher has settled, no button release comes too early. */
  lemma SettledIsLateEnough(d: Dev, usb: bool, i: Input)
    requires Settled(d, usb)
    ensures !TooEarly(d, i)
  {
  }

  /** Three quick button releases between the disconnect and the next dispatch take a
      central back to the on state with its role still set. */
  lemma UnsettledIsNotClean(d: Dev)
    requires d.fsm == Connectable && d.sig == WaitingForConnectee && Idle(d)
    ensures var run := [CentralDisconnected(false), Button(0, false), Button(0, false),
                       Button(BUTTON_PRESS_TICKS, false), Dispatch(false)];
            After(d, run).fsm == On && !Idle(After(d, run))
  {
    var run := [CentralDisconnected(false), Button(0, false), Button(0, false),
                Button(BUTTON_PRESS_TICKS, false), Dispatch(false)];
    var d1 := OnCentralDisconnected(d, false);
    var d2 := Pressed(d1, 0, false);
    var d3 := Pressed(d2, 0, false);
    var d4 := Pressed(d3, BUTTON_PRESS_TICKS, false);
    assert After(d4, run[4..]) == Dispatched(d4, false);
    assert run[3..][1..] == run[4..];
    assert After(d3, run[3..]) == Dispatched(d4, false);
    assert run[2..][1..] == run[3..];
    assert After(d2, run[2..]) == Dispatched(d4, false);
    assert run[1..][1..] == run[2..];
    assert After(d1, run[1..]) == Dispatched(d4, false);
  }
}
