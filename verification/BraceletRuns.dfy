/** Whole runs on the stateful code: one bracelet among any inputs, and two that pair. */
module BraceletRuns {
  import opened Options
  import opened Friends
  import opened Device
  import opened Bracelets
  import opened Pairing

  /** A bracelet handles its inputs one by one; it stays clean unless a button release comes
      too early. */
  method HandleAll(b: Bracelet, inputs: seq<Input>)
    requires b.friendsList.Shape()
    modifies b, b.friendsList, b.friendsList.slots
    ensures b.friendsList.Shape() && b.Snapshot() == After(old(b.Snapshot()), inputs)
    ensures old(Sound(b.Snapshot()) && NoneTooEarly(b.Snapshot(), inputs)) ==> Sound(b.Snapshot()) && Clean(b.Snapshot())
  {
    ghost var d := b.Snapshot();
    var k := 0;
    while k < |inputs|
      invariant 0 <= k <= |inputs| && b.friendsList.Shape()
      invariant After(b.Snapshot(), inputs[k..]) == After(d, inputs)
    {
      assert inputs[k..][0] == inputs[k] && inputs[k..][1..] == inputs[k + 1..];
      b.Handle(inputs[k]);
      k := k + 1;
    }
    assert inputs[k..] == [];
    if Sound(d) && NoneTooEarly(d, inputs) {
      CleanIdle(d, inputs);
    }
  }

  /** Two bracelets handle the happenings of a session `w`. What either stores is in its
      list of friends, under the colour the central selected, and both agree. */
  method Session(c: Bracelet, p: Bracelet, hs: seq<Happening>, ghost w: World) returns (ghost v: World)
    requires c.friendsList.Shape() && p.friendsList.Shape()
    requires {c, c.friendsList, c.friendsList.slots} !! {p, p.friendsList, p.friendsList.slots}
    requires Init(w) && w.c == c.Snapshot() && w.p == p.Snapshot() && Run(w, hs)
    modifies c, c.friendsList, c.friendsList.slots, p, p.friendsList, p.friendsList.slots
    ensures c.friendsList.Shape() && p.friendsList.Shape()
    ensures v == End(w, hs) && v.c == c.Snapshot() && v.p == p.Snapshot()
    ensures v.storedC.Some? ==>
              v.offered == v.echoed == Some(v.storedC.value.color)
              && Knows(c.friendsList.Used(), w.addrP, v.storedC.value.color)
    ensures v.storedP.Some? ==>
              v.left != Staying && v.offered == Some(v.storedP.value.color)
              && Knows(p.friendsList.Used(), w.addrC, v.storedP.value.color)
  {
    v := w;
    var k := 0;
    while k < |hs|
      invariant 0 <= k <= |hs| && c.friendsList.Shape() && p.friendsList.Shape()
      invariant v.c == c.Snapshot() && v.p == p.Snapshot()
      invariant Run(v, hs[k..]) && End(v, hs[k..]) == End(w, hs)
    {
      assert hs[k..][0] == hs[k] && hs[k..][1..] == hs[k + 1..];
      v := Step(v, hs[k]);
      match hs[k] {
        case ForC(i) => c.Handle(i);
        case ForP(i) => p.Handle(i);
      }
      k := k + 1;
    }
    assert hs[k..] == [];
    PairingAgrees(w, hs);
    if v.storedP.Some? {
      PeripheralStoresLast(w, hs);
    }
  }
}
