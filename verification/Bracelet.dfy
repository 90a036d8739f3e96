/** One bracelet with its static variables updated in place: the state functions of fsm.c,
    the button handler, the timers and the BLE event branches, each proved equal to its
    function in Device. */
module Bracelets {
  import opened Options
  import opened Friends
  import opened Device
  import DeviceOutcomes

  class Bracelet {
    var fsm: Fsm
    var sig: Signal
    var cycle: bool
    var currentCycle: int
    var color: int
    var pendingFriend: int
    const friendsList: FriendsList
    var ffConnAsCentral: bool
    var ffConnAsPeriph: bool
    var ffCentComplete: bool
    var ffPeriphComplete: bool
    var ffIndex: int
    var friendSelected: bool
    var alreadyOn: bool
    var adv: Adv
    var saving: bool

    ghost function Snapshot(): Dev
      reads this, friendsList, friendsList.slots
      requires friendsList.Shape()
    {
      Dev(fsm, sig, cycle, currentCycle, color, pendingFriend, friendsList.Used(), ffConnAsCentral, ffConnAsPeriph,
          ffCentComplete, ffPeriphComplete, ffIndex, friendSelected, alreadyOn, adv, saving)
    }

    constructor ()
      ensures fresh(friendsList) && fresh(friendsList.slots) && friendsList.Valid()
      ensures Snapshot().fsm == On && Idle(Snapshot()) && Snapshot().friends == []
      ensures Sound(Snapshot())
    {
      fsm, sig := On, JewelbotOn;
      cycle, currentCycle, color, pendingFriend := false, 0, 0, 0;
      ffConnAsCentral, ffConnAsPeriph, ffCentComplete, ffPeriphComplete := false, false, false, false;
      ffIndex, friendSelected, alreadyOn, adv, saving := FF_SENTINEL, false, false, NonConn, false;
      friendsList := new FriendsList();
    }

    // ---------- state functions ----------

    method JwbOn(usb: bool)
      requires friendsList.Shape()
      modifies this
      ensures Snapshot() == OnState(old(Snapshot()), usb)
    {
      if LeadsElsewhere(sig) {
        fsm := Elsewhere;
      } else if sig == ButtonPressLong {
        sig := WaitingForConnectee;
        adv := ConnectableAdv;
        fsm := Connectable;
      } else if sig == JewelbotOn {
        if usb {
          sig := Charging;
        }
      }
    }

    method JwbConnectableState()
      requires friendsList.Shape()
      modifies this
      ensures Snapshot() == ConnectableState(old(Snapshot()))
    {
      if sig == ConnecteeFound {
        if ffConnAsCentral {
          sig := Adding;
          fsm := AddFriend;
        } else if ffConnAsPeriph {
          FoundByCentral();
        }
      } else if GivesUp(sig) {
        fsm := DeclineFriend;
      } else if sig == JewelbotOn {
        fsm := On;
      }
    }

    method FoundByCentral()
      requires friendsList.Shape() && sig == ConnecteeFound && !ffConnAsCentral && ffConnAsPeriph
      modifies this
      ensures Snapshot() == ConnectableState(old(Snapshot()))
    {
      if !friendSelected && !alreadyOn {
        alreadyOn := true;
      } else if friendSelected {
        alreadyOn := false;
        friendSelected := false;
        sig := Accepting;
        fsm := AddFriend;
      }
    }

    method CycleThroughAllColors()
      modifies this`currentCycle, this`color
      ensures color == old(currentCycle) && currentCycle == AfterShown(old(currentCycle))
    {
      var current := currentCycle;
      if current > 3 {
        currentCycle := 0;
      }
      color := current;
    }

    method JwbAddFriend()
      requires friendsList.Shape()
      modifies this
      ensures Snapshot() == AddFriendState(old(Snapshot()))
    {
      if sig == Accepting {
        AcceptPressed();
      } else if GivesUp(sig) {
        cycle := false;
        fsm := DeclineFriend;
      } else if sig == Adding {
        ColourShown();
      } else {
        if sig == ConnecteeFound {
          sig := Adding;
        }
        if pendingFriend == 0 {
          sig := MoveOutOfRange;
        }
      }
    }

    method ColourShown()
      requires friendsList.Shape()
      modifies this
      ensures Snapshot() == Cycling(old(Snapshot()))
    {
      if !cycle {
        currentCycle := 0;
        cycle := true;
      }
      CycleThroughAllColors();
    }

    method AcceptPressed()
      requires friendsList.Shape()
      modifies this
      ensures Snapshot() == Offering(old(Snapshot()))
    {
      cycle := false;
      if pendingFriend == 0 {
        sig := MoveOutOfRange;
        fsm := DeclineFriend;
      }
      ffIndex := color;
      adv := Ff(ffIndex);
      fsm := AcceptFriend;
    }

    /** add_or_update_friends_list and save_friends: a full list returns before the save. */
    method AddOrUpdateAndSave()
      requires friendsList.Shape()
      modifies this`adv, this`saving, friendsList, friendsList.slots
      ensures friendsList.Shape() && Snapshot() == SaveFriend(old(Snapshot()))
    {
      var full := friendsList.num == MAX_NUM_OF_FRIENDS;
      friendsList.AddOrUpdateFriendsList(pendingFriend, color);
      if !full {
        adv := Silent;
        saving := true;
      }
    }

    method JwbAcceptFriend()
      requires friendsList.Shape()
      modifies this, friendsList, friendsList.slots
      ensures friendsList.Shape() && Snapshot() == AcceptFriendState(old(Snapshot()))
    {
      if GivesUp(sig) {
        cycle := false;
        fsm := DeclineFriend;
      } else if ffCentComplete || ffPeriphComplete {
        FriendAccepted();
      }
    }

    method FriendAccepted()
      requires friendsList.Shape()
      modifies this, friendsList, friendsList.slots
      ensures friendsList.Shape() && Snapshot() == Commit(old(Snapshot()))
    {
      ReleaseRoles();
      AddOrUpdateAndSave();
      sig := JewelbotOn;
      fsm := On;
    }

    method ReleaseRoles()
      requires friendsList.Shape()
      modifies this
      ensures Snapshot() == Released(old(Snapshot()))
    {
      friendSelected := false;
      ffCentComplete := false;
      ffPeriphComplete := false;
      ffIndex := FF_SENTINEL;
    }

    method JwbDeclineFriend()
      requires friendsList.Shape()
      modifies this
      ensures Snapshot() == DeclineFriendState(old(Snapshot()))
    {
      if GivesUp(sig) {
        friendSelected := false;
        ffCentComplete := false;
        ffPeriphComplete := false;
        ffConnAsCentral := false;
        ffConnAsPeriph := false;
        ffIndex := FF_SENTINEL;
        sig := JewelbotOn;
        adv := NonConn;
        fsm := On;
      } else {
        sig := JewelbotOn;
      }
    }

    method StateMachineDispatch(usb: bool)
      requires friendsList.Shape()
      modifies this, friendsList, friendsList.slots
      ensures friendsList.Shape() && Snapshot() == Dispatched(old(Snapshot()), usb)
      ensures old(Sound(Snapshot())) ==> Sound(Snapshot())
      ensures old(GivesUp(sig)) ==> DeviceOutcomes.GivingUpGoesOn(old(Snapshot()), Snapshot())
    {
      if Sound(Snapshot()) {
        SoundKeptIff(Snapshot(), Dispatch(usb));
      }
      if GivesUp(sig) {
        DeviceOutcomes.GivingUpStep(Snapshot(), usb);
      }
      match fsm {
        case On => JwbOn(usb);
        case Connectable => JwbConnectableState();
        case AddFriend => JwbAddFriend();
        case AcceptFriend => JwbAcceptFriend();
        case DeclineFriend => JwbDeclineFriend();
        case Elsewhere =>
      }
    }

    // ---------- button, timers, flash ----------

    method ButtonReleased(ticks: int, usb: bool)
      requires friendsList.Shape()
      modifies this
      ensures Snapshot() == Pressed(old(Snapshot()), ticks, usb)
      ensures old(Sound(Snapshot())) ==> (Sound(Snapshot()) <==> !old(TooEarly(Snapshot(), Button(ticks, usb))))
      ensures old(fsm == On && sig == JewelbotOn) ==>
                && (sig == JewelbotOn <==> ticks < 1500) && (sig == MsgMode <==> 1500 <= ticks < 65000)
                && (sig == ButtonPressLong <==> 65000 <= ticks < 160000) && (sig == PowerDown <==> 160000 <= ticks)
    {
      if fsm == On && sig == JewelbotOn {
        DeviceOutcomes.PressSignalsInOnState(Snapshot(), ticks, usb);
      }
      if Sound(Snapshot()) {
        SoundKeptIff(Snapshot(), Button(ticks, usb));
      }
      if sig == MsgMode {
        sig := MsgColorSelected;
      } else if sig == Adding {
        sig := Accepting;
      } else if sig == ConnecteeFound {
        if ffConnAsCentral {
          sig := Adding;
        }
      } else if sig == WaitingForConnectee {
        if ticks >= BUTTON_PRESS_TICKS {
          adv := NonConn;
          sig := JewelbotOn;
        }
      } else {
        ReleasedOutsidePairing(ticks, usb);
      }
    }

    /** The other cases of the switch. */
    method ReleasedOutsidePairing(ticks: int, usb: bool)
      requires friendsList.Shape()
      requires sig != MsgMode && sig != Adding && sig != ConnecteeFound && sig != WaitingForConnectee
      modifies this`sig
      ensures Snapshot() == Pressed(old(Snapshot()), ticks, usb)
    {
      if sig == JewelbotOn {
        sig := OnPressSignal(ticks);
      } else if sig == DfuUpdate {
        sig := JewelbotOn;
      } else if sig == Charging {
        if ticks >= BUTTON_PRESS_TICKS && ticks < BUTTON_PRESS_LONG_TICKS {
          sig := BondWithMaster;
        } else if ticks >= BUTTON_PRESS_LONG_TICKS {
          if usb {
            sig := DfuUpdate;
          }
        }
      } else if sig != MsgColorSelected {
        if ticks >= BUTTON_PRESS_TICKS {
          sig := JewelbotOn;
        }
      }
    }

    method DeclineFriendTimeout()
      requires friendsList.Shape()
      modifies this
      ensures Snapshot() == DeclineTimedOut(old(Snapshot()))
      ensures old(Sound(Snapshot())) ==> Sound(Snapshot())
    {
      if Sound(Snapshot()) {
        SoundKeptIff(Snapshot(), DeclineTimeout);
      }
      if sig == WaitingForConnectee || sig == ConnecteeFound || sig == Adding || sig == Accepting || sig == ButtonPressLong {
        sig := Declining;
      }
    }

    method LedTimerDelay(all: bool)
      requires friendsList.Shape()
      modifies this
      ensures Snapshot() == LedTimedOut(old(Snapshot()), all)
      ensures old(Sound(Snapshot())) ==> Sound(Snapshot())
    {
      if Sound(Snapshot()) {
        SoundKeptIff(Snapshot(), LedTimeout(all));
      }
      if all {
        if currentCycle >= 4 {
          currentCycle := 0;
        } else {
          currentCycle := currentCycle + 1;
        }
      }
    }

    method FdsEvtUpdate(ok: bool)
      requires friendsList.Shape()
      modifies this
      ensures Snapshot() == FlashFinished(old(Snapshot()), ok)
      ensures old(Sound(Snapshot())) ==> Sound(Snapshot())
    {
      if Sound(Snapshot()) {
        FlashKeepsSound(Snapshot(), ok);
      }
      if ok {
        pendingFriend := 0;
      }
      saving := false;
      adv := NonConn;
    }

    // ---------- BLE events ----------

    method GapConnected(peer: int)
      requires friendsList.Shape()
      modifies this
      ensures Snapshot() == OnConnected(old(Snapshot()), peer)
      ensures old(Sound(Snapshot())) ==> Sound(Snapshot())
    {
      if Sound(Snapshot()) {
        SoundKeptIff(Snapshot(), Connected(peer));
      }
      if FriendAddingMode(sig) {
        pendingFriend := peer;
        return;
      }
      adv := NonConn;
    }

    method CentralGapDisconnected(failedToEstablish: bool)
      requires friendsList.Shape()
      modifies this
      ensures Snapshot() == OnCentralDisconnected(old(Snapshot()), failedToEstablish)
      ensures old(Sound(Snapshot())) ==> Sound(Snapshot())
    {
      if Sound(Snapshot()) {
        SoundKeptIff(Snapshot(), CentralDisconnected(failedToEstablish));
      }
      if sig == WaitingForConnectee {
        if !failedToEstablish {
          sig := ConnecteeFound;
          ffConnAsCentral := true;
          ffIndex := FF_SENTINEL;
          adv := Ff(ffIndex);
        }
        return;
      }
      adv := NonConn;
    }

    method PeriphGapDisconnected()
      requires friendsList.Shape()
      modifies this
      ensures Snapshot() == OnPeriphDisconnected(old(Snapshot()))
      ensures old(Sound(Snapshot())) ==> Sound(Snapshot())
    {
      if Sound(Snapshot()) {
        SoundKeptIff(Snapshot(), PeriphDisconnected);
      }
      if sig == WaitingForConnectee {
        sig := ConnecteeFound;
        ffConnAsPeriph := true;
        ffIndex := FF_SENTINEL;
        adv := Ff(ffIndex);
        return;
      }
      adv := NonConn;
    }

    method ScanReport(from: int, rsp: ScanRsp)
      requires friendsList.Shape()
      modifies this
      ensures Snapshot() == OnScanReport(old(Snapshot()), from, rsp)
      ensures old(Sound(Snapshot())) ==> Sound(Snapshot())
    {
      if Sound(Snapshot()) {
        SoundKeptIff(Snapshot(), Heard(from, rsp));
      }
      if from == pendingFriend {
        match rsp {
          case Offer(index) =>
            if ffConnAsCentral {
              if index != FF_SENTINEL {
                ffCentComplete := true;
                ffConnAsCentral := false;
              }
            } else if ffConnAsPeriph {
              if index != FF_SENTINEL {
                color := index;
                friendSelected := true;
              }
            }
          case Done =>
            if ffConnAsPeriph && ffIndex != FF_SENTINEL {
              ffPeriphComplete := true;
              ffConnAsPeriph := false;
            }
        }
      }
    }

    /** Any input, handed to its handler. The other states come back to the on state. */
    method Handle(i: Input)
      requires friendsList.Shape()
      modifies this, friendsList, friendsList.slots
      ensures friendsList.Shape() && Snapshot() == React(old(Snapshot()), i)
    {
      match i {
        case Dispatch(usb) => StateMachineDispatch(usb);
        case Button(ticks, usb) => ButtonReleased(ticks, usb);
        case DeclineTimeout => DeclineFriendTimeout();
        case LedTimeout(all) => LedTimerDelay(all);
        case BackFromElsewhere =>
          if fsm == Elsewhere {
            fsm, sig := On, JewelbotOn;
          }
        case FlashDone(ok) =>
          if saving {
            FdsEvtUpdate(ok);
          }
        case Connected(peer) => GapConnected(peer);
        case CentralDisconnected(failed) => CentralGapDisconnected(failed);
        case PeriphDisconnected => PeriphGapDisconnected();
        case Heard(from, rsp) => ScanReport(from, rsp);
      }
    }
  }
}
